/** The disclosure picker's flattening of a JSON body into the JSON Pointers of its leaves. */
module JsonPointer {
  import opened Bytes

  const MAX_FIELDS: nat := 200
  const MAX_PREVIEW: nat := 48

  /** Objects list their members in the order in which their sorted keys are visited. */
  datatype Json = Object(members: seq<(string, Json)>) | Array(items: seq<Json>) | Scalar(leaf: Leaf)

  /** A text as the reader counts it: a sequence of user-perceived characters. */
  type Text = seq<string>

  /** Null, a string, or a number with its textual form. */
  datatype Leaf = Nothing | Words(text: Text) | Figure(spelling: Text)

  /** No object has a key twice. */
  ghost predicate Valid(v: Json) {
    match v
    case Object(ms) =>
      && (forall i, j :: 0 <= i < j < |ms| ==> ms[i].0 != ms[j].0)
      && (forall i :: 0 <= i < |ms| ==> (assert ms[i].1 < ms[i]; Valid(ms[i].1)))
    case Array(items) => forall i :: 0 <= i < |items| ==> Valid(items[i])
    case Scalar(_) => true
  }

  // ------------------------------------------------------------ tokens

  function Replace(s: string, c: char, sub: string): (r: string) {
    if s == "" then "" else (if s[0] == c then sub else [s[0]]) + Replace(s[1..], c, sub)
  }

  /** Tildes first, then slashes. */
  function Escape(t: string): (s: string) { Replace(Replace(t, '~', "~0"), '/', "~1") }

  /** What RFC 6901 section 4 says a token stands for; anything it does not define is refused. */
  function Unescape(s: string): (r: Option<string>) {
    if s == "" then Some("")
    else if s[0] == '/' then None
    else if s[0] != '~' then match Unescape(s[1..]) case None => None case Some(t) => Some([s[0]] + t)
    else if |s| == 1 || (s[1] != '0' && s[1] != '1') then None
    else match Unescape(s[2..]) case None => None case Some(t) => Some((if s[1] == '0' then "~" else "/") + t)
  }

  function EscapeChar(c: char): (s: string) { if c == '~' then "~0" else if c == '/' then "~1" else [c] }

  lemma {:induction false} EscapeStep(t: string)
    requires t != ""
    ensures Escape(t) == EscapeChar(t[0]) + Escape(t[1..])
  {
    var r, more := Replace(t, '~', "~0"), Replace(t[1..], '~', "~0");
    if t[0] == '~' {
      var q := r[1..];
      assert r[0] == '~' && q[0] == '0' && q[1..] == more;
      assert Replace(q, '/', "~1") == ['0'] + Replace(more, '/', "~1");
      assert Replace(r, '/', "~1") == ['~'] + Replace(q, '/', "~1");
    } else {
      assert r == [t[0]] + more && r[1..] == more;
    }
  }

  /** Escaping and unescaping are inverse: a token stands for a key exactly when it is its escape. */
  lemma {:induction false} EscapeExact(s: string, t: string)
    ensures Unescape(s) == Some(t) <==> s == Escape(t)
    decreases |s|
  {
    hide Escape;
    EscapeOfEmpty();
    if t != "" { EscapeStep(t); }
    if s != "" && s[0] != '/' && (s[0] == '~' ==> |s| > 1 && (s[1] == '0' || s[1] == '1')) {
      var n, c := if s[0] == '~' then 2 else 1, if s[0] != '~' then s[0] else if s[1] == '0' then '~' else '/';
      assert s == EscapeChar(c) + s[n..];
      if t != "" {
        EscapeExact(s[n..], t[1..]);
        FirstChar(c, s[n..], t[0], Escape(t[1..]));
        assert t == [t[0]] + t[1..];
      }
      if Unescape(s[n..]).Some? { EscapeExact(s[n..], Unescape(s[n..]).value); }
    }
  }

  lemma FirstChar(c: char, x: string, d: char, y: string)
    ensures EscapeChar(c) + x == EscapeChar(d) + y <==> c == d && x == y
  {
    if EscapeChar(c) + x == EscapeChar(d) + y {
      var s := EscapeChar(c) + x;
      assert s[0] == EscapeChar(c)[0] == EscapeChar(d)[0];
      if s[0] == '~' { assert s[1] == EscapeChar(c)[1] == EscapeChar(d)[1]; }
      CutEqual(EscapeChar(c), x, EscapeChar(d), y);
    }
  }

  lemma EscapeOfEmpty()
    ensures Escape("") == ""
  {
  }

  lemma {:induction false} EscapeHasNoSlash(t: string)
    ensures '/' !in Escape(t)
  {
    hide Escape;
    if t == "" { EscapeOfEmpty(); } else { EscapeStep(t); EscapeHasNoSlash(t[1..]); }
  }

  // ------------------------------------------------------------ array indices

  function Digit(d: nat): (c: char)
    requires d < 10
  {
    (48 + d) as char
  }

  function Decimal(n: nat): (s: string)
    ensures s != ""
  {
    if n < 10 then [Digit(n)] else Decimal(n / 10) + [Digit(n % 10)]
  }

  /** A decimal index without leading zeros. */
  function ParseIndex(s: string): (r: Option<nat>) {
    if s == "" || !('0' <= s[|s| - 1] <= '9') then None
    else
      var d := s[|s| - 1] as int - 48;
      if |s| == 1 then Some(d)
      else
        match ParseIndex(s[..|s| - 1])
        case None => None
        case Some(m) => if m == 0 then None else Some(10 * m + d)
  }

  lemma {:induction false} DecimalExact(s: string, n: nat)
    ensures ParseIndex(s) == Some(n) <==> s == Decimal(n)
    decreases |s| + n
  {
    if n < 10 {
      OneDigit(s, n);
    } else {
      hide Decimal, ParseIndex;
      DecimalStep(n);
      if s != "" {
        var front, last := s[..|s| - 1], s[|s| - 1];
        DecimalExact(front, n / 10);
        assert s == front + [last];
        ParseStep(s, n);
        if s == Decimal(n) { CutEqualEnd(front, last, Decimal(n / 10), Digit(n % 10)); }
      }
    }
  }

  lemma {:induction false} OneDigit(s: string, n: nat)
    requires n < 10
    ensures ParseIndex(s) == Some(n) <==> s == Decimal(n)
  {
    if s == Decimal(n) { assert s[0] as int - 48 == n; }
    if ParseIndex(s) == Some(n) { assert |s| == 1 && s == [s[0]]; }
  }

  lemma DecimalStep(n: nat)
    requires n >= 10
    ensures Decimal(n) == Decimal(n / 10) + [Digit(n % 10)]
  {
  }

  /** A number of two digits or more is its front followed by its last digit. */
  lemma {:induction false} ParseStep(s: string, n: nat)
    requires s != "" && n >= 10
    ensures ParseIndex(s) == Some(n) <==>
      ParseIndex(s[..|s| - 1]) == Some(n / 10) && s[|s| - 1] == Digit(n % 10)
  {
  }

  lemma CutEqualEnd(a: string, x: char, b: string, y: char)
    requires a + [x] == b + [y]
    ensures a == b && x == y
  {
    assert |a| == |b|;
    CutEqual(a, [x], b, [y]);
  }

  lemma {:induction false} DecimalHasNoSlash(n: nat)
    ensures '/' !in Decimal(n)
  {
    if n >= 10 { DecimalHasNoSlash(n / 10); }
  }

  // ------------------------------------------------------------ resolution (RFC 6901 section 4)

  function FirstSlash(s: string): (n: nat)
    ensures n <= |s| && '/' !in s[..n] && (n < |s| ==> s[n] == '/')
  {
    if s == "" || s[0] == '/' then 0 else 1 + FirstSlash(s[1..])
  }

  function Member(ms: seq<(string, Json)>, k: string): (r: Option<Json>) {
    if ms == [] then None else if ms[0].0 == k then Some(ms[0].1) else Member(ms[1..], k)
  }

  function Child(v: Json, token: string): (r: Option<Json>) {
    match v
    case Object(ms) => (match Unescape(token) case None => None case Some(k) => Member(ms, k))
    case Array(items) =>
      (match ParseIndex(token) case None => None case Some(i) => if i < |items| then Some(items[i]) else None)
    case Scalar(_) => None
  }

  function Resolve(v: Json, p: string): (r: Option<Json>)
    decreases |p|
  {
    if p == "" then Some(v)
    else if p[0] != '/' then None
    else
      var n := FirstSlash(p[1..]);
      match Child(v, p[1..][..n]) case None => None case Some(c) => Resolve(c, p[1..][n..])
  }

  // ------------------------------------------------------------ flattening

  /** One selectable field: where the leaf is, and what is shown of it. */
  datatype Field = Field(pointer: string, preview: Text)

  function RawText(leaf: Leaf): (t: Text) {
    match leaf
    case Nothing => ["n", "u", "l", "l"]
    case Words(text) => text
    case Figure(spelling) => spelling
  }

  /** Up to 48 characters in full, a longer text cut there and marked with an ellipsis. */
  function PreviewText(leaf: Leaf): (t: Text)
    ensures t == RawText(leaf) || (|t| == MAX_PREVIEW + 1 < |RawText(leaf)| + 1 && t[..MAX_PREVIEW] <= RawText(leaf))
    ensures |RawText(leaf)| <= MAX_PREVIEW ==> t == RawText(leaf)
  {
    var raw := RawText(leaf);
    if |raw| > MAX_PREVIEW then raw[..MAX_PREVIEW] + ["\U{2026}"] else raw
  }

  /** The same field seen from further up. */
  function Under(p: string, f: Field): (g: Field) { f.(pointer := p + f.pointer) }

  function Prefix(p: string, fs: seq<Field>): (r: seq<Field>)
    ensures |r| == |fs| && forall i :: 0 <= i < |fs| ==> r[i] == Under(p, fs[i])
  {
    seq(|fs|, i requires 0 <= i < |fs| => Under(p, fs[i]))
  }

  /** The leaves below `v` in visiting order, each with the pointer that leads from `v` to it. */
  function Leaves(v: Json): (r: seq<Field>)
    decreases v, 1
  {
    match v
    case Object(ms) => MemberLeaves(ms)
    case Array(items) => ItemLeaves(items, 0)
    case Scalar(leaf) => [Field("", PreviewText(leaf))]
  }

  function MemberLeaves(ms: seq<(string, Json)>): (r: seq<Field>)
    decreases ms, 0
  {
    if ms == [] then []
    else
      assert ms[0].1 < ms[0];
      Prefix("/" + Escape(ms[0].0), Leaves(ms[0].1)) + MemberLeaves(ms[1..])
  }

  function ItemLeaves(items: seq<Json>, i: nat): (r: seq<Field>)
    decreases items, 0
  {
    if items == [] then [] else Prefix("/" + Decimal(i), Leaves(items[0])) + ItemLeaves(items[1..], i + 1)
  }

  /** The picker's list: only for an object or an array, and at most 200 entries. */
  function Fields(root: Json): (r: Option<seq<Field>>) {
    if root.Scalar? then None else Some(Capped(Leaves(root)))
  }

  function Capped(s: seq<Field>): (r: seq<Field>)
    ensures |r| <= MAX_FIELDS
  {
    if |s| <= MAX_FIELDS then s else s[..MAX_FIELDS]
  }
}
