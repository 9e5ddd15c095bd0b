/** The allow-list of private providers: origins are checked, sorted and deduplicated once, then
    looked up by binary search. */
module ProviderPolicy {
  import opened Bytes
  import opened HybridTypes

  // ------------------------------------------------------------ order on strings

  /** Code-point order, which is also the order of the UTF-8 bytes. */
  predicate Less(a: string, b: string) {
    if b == "" then false
    else if a == "" then true
    else a[0] < b[0] || (a[0] == b[0] && Less(a[1..], b[1..]))
  }

  lemma {:induction false} LessIrreflexive(a: string)
    ensures !Less(a, a)
  {
    if a != "" { LessIrreflexive(a[1..]); }
  }

  lemma {:induction false} LessTransitive(a: string, b: string, c: string)
    requires Less(a, b) && Less(b, c)
    ensures Less(a, c)
  {
    if a != "" && a[0] == b[0] == c[0] { LessTransitive(a[1..], b[1..], c[1..]); }
  }

  lemma {:induction false} LessTotal(a: string, b: string)
    ensures a == b || Less(a, b) || Less(b, a)
  {
    if a != "" && b != "" && a[0] == b[0] {
      LessTotal(a[1..], b[1..]);
      assert a == [a[0]] + a[1..] && b == [b[0]] + b[1..];
    }
  }

  /** `a` ends where `b` goes on, or the first character in which they differ is the smaller one. */
  ghost predicate Precedes(a: string, b: string) {
    exists n: nat :: n <= |a| && n < |b| && a[..n] == b[..n] && (n == |a| || a[n] < b[n])
  }

  lemma {:induction false} LessIsLexicographic(a: string, b: string)
    ensures Less(a, b) <==> Precedes(a, b)
  {
    if b != "" {
      if a == "" || a[0] != b[0] {
        FirstCharacter(a, b);
      } else {
        LessIsLexicographic(a[1..], b[1..]);
        PrecedesTail(a, b);
      }
    }
  }

  lemma FirstCharacter(a: string, b: string)
    requires b != "" && (a == "" || a[0] != b[0])
    ensures Precedes(a, b) <==> a == "" || a[0] < b[0]
  {
    if a == "" || a[0] < b[0] { assert a[..0] == b[..0]; }
    if Precedes(a, b) {
      var n: nat :| n <= |a| && n < |b| && a[..n] == b[..n] && (n == |a| || a[n] < b[n]);
      if n > 0 { assert a[..n][0] == b[..n][0]; }
    }
  }

  lemma PrecedesTail(a: string, b: string)
    requires a != "" && b != "" && a[0] == b[0]
    ensures Precedes(a, b) <==> Precedes(a[1..], b[1..])
  {
    var x, y := a[1..], b[1..];
    if Precedes(a, b) {
      var n: nat :| n <= |a| && n < |b| && a[..n] == b[..n] && (n == |a| || a[n] < b[n]);
      assert n > 0 && x[..n - 1] == a[..n][1..] && y[..n - 1] == b[..n][1..];
    }
    if Precedes(x, y) {
      var n: nat :| n <= |x| && n < |y| && x[..n] == y[..n] && (n == |x| || x[n] < y[n]);
      assert a[..n + 1] == [a[0]] + x[..n] && b[..n + 1] == [b[0]] + y[..n];
    }
  }

  // ------------------------------------------------------------ sort and dedup

  function Insert(x: string, s: seq<string>): (r: seq<string>) {
    if s == [] then [x] else if Less(s[0], x) then [s[0]] + Insert(x, s[1..]) else [x] + s
  }

  function Sort(s: seq<string>): (r: seq<string>) { if s == [] then [] else Insert(s[0], Sort(s[1..])) }

  /** Drops an element equal to the one after it. */
  function Dedup(s: seq<string>): (r: seq<string>) {
    if |s| < 2 then s else if s[0] == s[1] then Dedup(s[1..]) else [s[0]] + Dedup(s[1..])
  }

  ghost predicate NotAbove(x: string, s: seq<string>) { forall y :: y in s ==> !Less(y, x) }

  /** In order, possibly with repetitions. */
  ghost predicate Ordered(s: seq<string>) { s != [] ==> NotAbove(s[0], s) && Ordered(s[1..]) }

  ghost predicate Below(x: string, s: seq<string>) { forall y :: y in s ==> Less(x, y) }

  /** In order, without repetitions. */
  ghost predicate Strict(s: seq<string>) { s != [] ==> Below(s[0], s[1..]) && Strict(s[1..]) }

  lemma {:induction false} InsertOrdered(x: string, s: seq<string>)
    requires Ordered(s)
    ensures Ordered(Insert(x, s)) && forall y :: y in Insert(x, s) <==> y == x || y in s
  {
    hide Less;
    LessIrreflexive(x);
    if s == [] {
      assert Insert(x, s)[1..] == [];
    } else if Less(s[0], x) {
      InsertOrdered(x, s[1..]);
      var r := Insert(x, s);
      assert r[1..] == Insert(x, s[1..]) && s == [s[0]] + s[1..];
      if Less(x, s[0]) { LessTransitive(x, s[0], x); }
      LessIrreflexive(s[0]);
    } else {
      var r := Insert(x, s);
      assert r[1..] == s;
      forall y | y in r ensures !Less(y, x) {
        if y in s && Less(y, x) {
          LessTotal(s[0], x);
          if Less(x, s[0]) { LessTransitive(y, x, s[0]); }
        }
      }
    }
  }

  lemma {:induction false} SortOrdered(s: seq<string>)
    ensures Ordered(Sort(s)) && forall y :: y in Sort(s) <==> y in s
  {
    hide Less, Insert;
    if s != [] {
      SortOrdered(s[1..]);
      InsertOrdered(s[0], Sort(s[1..]));
      assert s == [s[0]] + s[1..];
    }
  }

  lemma {:induction false} DedupStrict(s: seq<string>)
    requires Ordered(s)
    ensures Strict(Dedup(s)) && forall y :: y in Dedup(s) <==> y in s
  {
    hide Less;
    if |s| == 1 {
      assert s[1..] == [];
    } else if |s| >= 2 {
      DedupStrict(s[1..]);
      assert s == [s[0]] + s[1..];
      if s[0] == s[1] {
        assert s[0] in s[1..];
      } else {
        var r := Dedup(s);
        assert r[1..] == Dedup(s[1..]);
        forall y | y in r[1..] ensures Less(s[0], y) {
          assert y in s;
          LessTotal(s[0], s[1]);
          if y != s[1] {
            assert NotAbove(s[1..][0], s[1..]);
            LessTotal(s[1], y);
            LessTransitive(s[0], s[1], y);
          }
        }
      }
    }
  }

  /** A set of strings has one strictly ordered listing. */
  lemma {:induction false} StrictUnique(a: seq<string>, b: seq<string>)
    requires Strict(a) && Strict(b) && forall y :: y in a <==> y in b
    ensures a == b
  {
    hide Less;
    assert a != [] ==> a[0] in b;
    assert b != [] ==> b[0] in a;
    if a != [] {
      assert a == [a[0]] + a[1..] && b == [b[0]] + b[1..];
      assert a[0] in b && b[0] in a;
      if a[0] != b[0] {
        assert Less(a[0], b[0]) && Less(b[0], a[0]);
        LessTransitive(a[0], b[0], a[0]);
        LessIrreflexive(a[0]);
      }
      TailsAgree(a, b);
      StrictUnique(a[1..], b[1..]);
    }
  }

  lemma TailsAgree(a: seq<string>, b: seq<string>)
    requires a != [] && b != [] && a[0] == b[0] && Strict(a) && Strict(b) && forall y :: y in a <==> y in b
    ensures forall y :: y in a[1..] <==> y in b[1..]
  {
    hide Less;
    LessIrreflexive(a[0]);
    assert a == [a[0]] + a[1..] && b == [b[0]] + b[1..];
    assert a[0] !in a[1..] && b[0] !in b[1..];
    forall y ensures y in a[1..] <==> y in b[1..] {
      assert y in a <==> y == a[0] || y in a[1..];
      assert y in b <==> y == b[0] || y in b[1..];
    }
  }

  // ------------------------------------------------------------ origins

  /** Characters with the Unicode White_Space property. */
  predicate IsWhitespace(c: char) {
    var n := c as int;
    || 0x09 <= n <= 0x0D || n == 0x20 || n == 0x85 || n == 0xA0 || n == 0x1680 || 0x2000 <= n <= 0x200A
    || n == 0x2028 || n == 0x2029 || n == 0x202F || n == 0x205F || n == 0x3000
  }

  function Authority(origin: string): (a: string) { if "https://" <= origin then origin[8..] else "" }

  predicate OriginOk(origin: string) {
    var a := Authority(origin);
    && a != "" && '/' !in a && '?' !in a && '#' !in a && '@' !in a && '\\' !in a
    && !(exists i :: 0 <= i < |a| && IsWhitespace(a[i]))
  }

  /** The 25 characters with that property, one by one. */
  function WhiteSpace(): (cs: set<char>) {
    {'\t', '\n', '\U{000B}', '\U{000C}', '\r', ' ', '\U{0085}', '\U{00A0}', '\U{1680}', '\U{2000}', '\U{2001}',
     '\U{2002}', '\U{2003}', '\U{2004}', '\U{2005}', '\U{2006}', '\U{2007}', '\U{2008}', '\U{2009}', '\U{200A}',
     '\U{2028}', '\U{2029}', '\U{202F}', '\U{205F}', '\U{3000}'}
  }

  lemma {:induction false} WhitespaceExact(c: char)
    ensures IsWhitespace(c) <==> c in WhiteSpace()
  {
  }

  predicate Plain(a: string) {
    forall c :: c in a ==> c !in {'/', '?', '#', '@', '\\'} && c !in WhiteSpace()
  }

  lemma {:induction false} PlainIff(a: string)
    ensures Plain(a) <==> '/' !in a && '?' !in a && '#' !in a && '@' !in a && '\\' !in a
                          && !(exists i :: 0 <= i < |a| && IsWhitespace(a[i]))
  {
    hide IsWhitespace, WhiteSpace;
    forall c ensures IsWhitespace(c) <==> c in WhiteSpace() { WhitespaceExact(c); }
    if Plain(a) {
      forall i | 0 <= i < |a| ensures !IsWhitespace(a[i]) { assert a[i] in a; }
    }
  }

  /** An origin is `https://` and a non-empty authority free of path, query, fragment, user
      information, reverse solidus and white space. */
  lemma {:induction false} OriginExact(origin: string)
    ensures OriginOk(origin) <==> exists a: string :: origin == "https://" + a && a != "" && Plain(a)
  {
    hide IsWhitespace, WhiteSpace, Plain;
    PlainIff(Authority(origin));
    if OriginOk(origin) { assert origin == "https://" + Authority(origin); }
    if a: string :| origin == "https://" + a && a != "" && Plain(a) { assert Authority(origin) == a; }
  }

  predicate AllOk(origins: seq<string>) { forall i :: 0 <= i < |origins| ==> OriginOk(origins[i]) }

  function NewPolicy(origins: seq<string>): (r: Result<seq<string>, HybridError>) {
    if !AllOk(origins) then Err(NonCanonicalInput) else Ok(Dedup(Sort(origins)))
  }

  lemma {:induction false} PolicyListing(origins: seq<string>)
    requires NewPolicy(origins).Ok?
    ensures Strict(NewPolicy(origins).value) && forall y :: y in NewPolicy(origins).value <==> y in origins
  {
    hide Less, Sort, Dedup, AllOk;
    SortOrdered(origins);
    DedupStrict(Sort(origins));
  }

  /** Two allow-lists give equal policies exactly when they name the same origins. */
  lemma {:induction false} PolicyIsASet(a: seq<string>, b: seq<string>)
    requires NewPolicy(a).Ok? && NewPolicy(b).Ok?
    ensures NewPolicy(a) == NewPolicy(b) <==> forall y :: y in a <==> y in b
  {
    hide NewPolicy, Strict;
    PolicyListing(a);
    PolicyListing(b);
    if forall y :: y in a <==> y in b { StrictUnique(NewPolicy(a).value, NewPolicy(b).value); }
    if NewPolicy(a) == NewPolicy(b) {
      forall y ensures y in a <==> y in b { assert y in NewPolicy(a).value <==> y in NewPolicy(b).value; }
    }
  }

  // ------------------------------------------------------------ lookup

  lemma {:induction false} StrictAt(s: seq<string>, i: nat, j: nat)
    requires Strict(s) && i < j < |s|
    ensures Less(s[i], s[j])
  {
    hide Less;
    if i == 0 { assert s[j] in s[1..]; } else { StrictAt(s[1..], i - 1, j - 1); }
  }

  /** Halving search over the sorted list. */
  method BinarySearch(allowed: seq<string>, origin: string) returns (found: bool)
    requires Strict(allowed)
    ensures found <==> origin in allowed
  {
    hide Less, Strict;
    var lo, hi := 0, |allowed|;
    while lo < hi
      invariant 0 <= lo <= hi <= |allowed|
      invariant forall i :: 0 <= i < |allowed| && allowed[i] == origin ==> lo <= i < hi
    {
      var mid := lo + (hi - lo) / 2;
      if allowed[mid] == origin { return true; }
      SideOf(allowed, origin, mid);
      if Less(allowed[mid], origin) { lo := mid + 1; } else { hi := mid; }
    }
    found := false;
  }

  lemma SideOf(s: seq<string>, x: string, mid: nat)
    requires Strict(s) && mid < |s| && s[mid] != x
    ensures forall i :: 0 <= i < |s| && s[i] == x ==> (i > mid <==> Less(s[mid], x))
  {
    hide Less, Strict;
    LessIrreflexive(x);
    forall i | 0 <= i < |s| && s[i] == x ensures i > mid <==> Less(s[mid], x) {
      if i > mid {
        StrictAt(s, mid, i);
      } else {
        StrictAt(s, i, mid);
        if Less(s[mid], x) { LessTransitive(x, s[mid], x); }
      }
    }
  }

  /** A session is authorised exactly for a listed origin that offers the one exact profile and
      nothing else. */
  method Authorize(allowed: seq<string>, origin: string, offers: seq<string>) returns (r: Result<(), HybridError>)
    requires Strict(allowed)
    ensures r == if origin in allowed && offers == ["euwallet-hybrid-pq-v1"] then Ok(()) else Err(DowngradeDetected)
  {
    hide Strict;
    var found := BinarySearch(allowed, origin);
    if !found || offers != ["euwallet-hybrid-pq-v1"] { return Err(DowngradeDetected); }
    r := Ok(());
  }

  /** From the configured list to the decision: sorting, deduplication and search change nothing. */
  method AuthorizeFrom(origins: seq<string>, origin: string, offers: seq<string>) returns (r: Result<(), HybridError>)
    ensures r.Ok? <==> AllOk(origins) && origin in origins && offers == ["euwallet-hybrid-pq-v1"]
    ensures r.Err? ==> r.error == if AllOk(origins) then DowngradeDetected else NonCanonicalInput
  {
    hide AllOk, Strict;
    var policy := NewPolicy(origins);
    if policy.Err? { return Err(policy.error); }
    PolicyListing(origins);
    r := Authorize(policy.value, origin, offers);
  }
}
