/** The picker lists each leaf once, under the pointer that resolves to it. */
module JsonPointerTheorems {
  import opened Bytes
  import opened JsonPointer

  // ------------------------------------------------------------ one step of a pointer

  /** What may follow a token: nothing, or another token. */
  predicate Continues(s: string) { s == "" || s[0] == '/' }

  lemma {:induction false} FirstSlashAfter(token: string, rest: string)
    requires '/' !in token && Continues(rest)
    ensures FirstSlash(token + rest) == |token|
  {
    if token == "" {
      assert token + rest == rest;
    } else {
      assert (token + rest)[1..] == token[1..] + rest;
      FirstSlashAfter(token[1..], rest);
    }
  }

  lemma {:induction false} ResolveStep(v: Json, token: string, rest: string)
    requires '/' !in token && Continues(rest)
    ensures Resolve(v, ("/" + token) + rest) == match Child(v, token) case None => None case Some(c) => Resolve(c, rest)
  {
    hide Child, FirstSlash;
    var p := ("/" + token) + rest;
    FirstSlashAfter(token, rest);
    assert p[1..] == token + rest;
    assert (token + rest)[..|token|] == token && (token + rest)[|token|..] == rest;
  }

  lemma TokenUnique(a: string, x: string, b: string, y: string)
    requires '/' !in a && '/' !in b && Continues(x) && Continues(y) && ("/" + a) + x == ("/" + b) + y
    ensures a == b && x == y
  {
    hide FirstSlash;
    FirstSlashAfter(a, x);
    FirstSlashAfter(b, y);
    assert (("/" + a) + x)[1..] == a + x && (("/" + b) + y)[1..] == b + y;
    CutEqual(a, x, b, y);
  }

  lemma {:induction false} LeavesContinue(v: Json, f: Field)
    requires f in Leaves(v)
    ensures Continues(f.pointer)
  {
    hide Escape, Decimal, Leaves;
    match v
    case Object(ms) => ObjectLeaves(ms); var i, g := InMembers(ms, f);
    case Array(items) => ArrayLeaves(items); var i, g := InItems(items, 0, f);
    case Scalar(leaf) => ScalarLeaves(leaf);
  }

  lemma ObjectLeaves(ms: seq<(string, Json)>)
    ensures Leaves(Object(ms)) == MemberLeaves(ms)
  {
  }

  lemma ArrayLeaves(items: seq<Json>)
    ensures Leaves(Array(items)) == ItemLeaves(items, 0)
  {
  }

  lemma ScalarLeaves(leaf: Leaf)
    ensures Leaves(Scalar(leaf)) == [Field("", PreviewText(leaf))]
  {
    hide PreviewText;
  }

  // ------------------------------------------------------------ members of the listing

  lemma {:induction false} InMembers(ms: seq<(string, Json)>, f: Field) returns (i: nat, g: Field)
    requires f in MemberLeaves(ms)
    ensures i < |ms| && g in Leaves(ms[i].1) && f == Under("/" + Escape(ms[i].0), g)
  {
    hide Escape, Leaves;
    var here := Prefix("/" + Escape(ms[0].0), Leaves(ms[0].1));
    if f in here {
      var k :| 0 <= k < |here| && here[k] == f;
      i, g := 0, Leaves(ms[0].1)[k];
    } else {
      i, g := InMembers(ms[1..], f);
      i := i + 1;
    }
  }

  lemma {:induction false} MemberListed(ms: seq<(string, Json)>, i: nat, g: Field)
    requires i < |ms| && g in Leaves(ms[i].1)
    ensures Under("/" + Escape(ms[i].0), g) in MemberLeaves(ms)
  {
    hide Escape, Leaves;
    if i == 0 {
      var k :| 0 <= k < |Leaves(ms[0].1)| && Leaves(ms[0].1)[k] == g;
      assert Prefix("/" + Escape(ms[0].0), Leaves(ms[0].1))[k] == Under("/" + Escape(ms[0].0), g);
    } else {
      MemberListed(ms[1..], i - 1, g);
    }
  }

  lemma {:induction false} InItems(items: seq<Json>, from: nat, f: Field) returns (i: nat, g: Field)
    requires f in ItemLeaves(items, from)
    ensures i < |items| && g in Leaves(items[i]) && f == Under("/" + Decimal(from + i), g)
    decreases items
  {
    hide Decimal, Leaves;
    var here := Prefix("/" + Decimal(from), Leaves(items[0]));
    if f in here {
      var k :| 0 <= k < |here| && here[k] == f;
      i, g := 0, Leaves(items[0])[k];
    } else {
      i, g := InItems(items[1..], from + 1, f);
      i := i + 1;
    }
  }

  lemma {:induction false} ItemListed(items: seq<Json>, from: nat, i: nat, g: Field)
    requires i < |items| && g in Leaves(items[i])
    ensures Under("/" + Decimal(from + i), g) in ItemLeaves(items, from)
    decreases items
  {
    hide Decimal, Leaves;
    if i == 0 {
      var k :| 0 <= k < |Leaves(items[0])| && Leaves(items[0])[k] == g;
      assert Prefix("/" + Decimal(from), Leaves(items[0]))[k] == Under("/" + Decimal(from), g);
    } else {
      ItemListed(items[1..], from + 1, i - 1, g);
    }
  }

  // ------------------------------------------------------------ listing and resolution

  lemma {:induction false} MemberAt(ms: seq<(string, Json)>, k: string, i: nat)
    requires forall i, j :: 0 <= i < j < |ms| ==> ms[i].0 != ms[j].0
    requires i < |ms| && ms[i].0 == k
    ensures Member(ms, k) == Some(ms[i].1)
  {
    if i > 0 { MemberAt(ms[1..], k, i - 1); }
  }

  lemma {:induction false} MemberFound(ms: seq<(string, Json)>, k: string) returns (i: nat)
    requires Member(ms, k).Some?
    ensures i < |ms| && ms[i].0 == k && Member(ms, k) == Some(ms[i].1)
  {
    if ms[0].0 == k { i := 0; } else { i := MemberFound(ms[1..], k); i := i + 1; }
  }

  /** The field's pointer resolves to a leaf, and the preview shown is that leaf's. */
  ghost predicate ShowsLeaf(v: Json, f: Field) {
    var target := Resolve(v, f.pointer);
    target.Some? && target.value.Scalar? && f.preview == PreviewText(target.value.leaf)
  }

  /** A field is listed exactly when its pointer resolves to the very leaf it previews. */
  lemma {:induction false} ListedIff(v: Json, f: Field)
    requires Valid(v)
    ensures f in Leaves(v) <==> ShowsLeaf(v, f)
    decreases v
  {
    hide Escape, Decimal, Leaves, Resolve;
    if f in Leaves(v) { ListedResolves(v, f); }
    if ShowsLeaf(v, f) { ResolvesListed(v, f); }
  }

  lemma {:induction false} ListedResolves(v: Json, f: Field)
    requires Valid(v) && f in Leaves(v)
    ensures ShowsLeaf(v, f)
    decreases v, 0
  {
    hide Escape, Decimal, Leaves, Resolve, Unescape, ParseIndex, Member;
    match v
    case Object(ms) =>
      ObjectLeaves(ms);
      var i, g := InMembers(ms, f);
      assert ms[i].1 < ms[i];
      ListedIff(ms[i].1, g);
      LeavesContinue(ms[i].1, g);
      EscapeHasNoSlash(ms[i].0);
      EscapeExact(Escape(ms[i].0), ms[i].0);
      MemberAt(ms, ms[i].0, i);
      ResolveStep(v, Escape(ms[i].0), g.pointer);
    case Array(items) =>
      ArrayLeaves(items);
      var i, g := InItems(items, 0, f);
      ListedIff(items[i], g);
      LeavesContinue(items[i], g);
      DecimalHasNoSlash(i);
      DecimalExact(Decimal(i), i);
      ResolveStep(v, Decimal(i), g.pointer);
    case Scalar(leaf) =>
      ScalarLeaves(leaf);
      ResolveEmpty(v);
  }

  lemma ResolveEmpty(v: Json)
    ensures Resolve(v, "") == Some(v)
  {
  }

  /** The token and the rest of a pointer that resolves below `v`. */
  lemma {:induction false} FirstToken(v: Json, p: string) returns (token: string, rest: string)
    requires p != "" && Resolve(v, p).Some?
    ensures p == ("/" + token) + rest && '/' !in token && Continues(rest)
    ensures Child(v, token).Some? && Resolve(v, p) == Resolve(Child(v, token).value, rest)
  {
    hide Child, FirstSlash;
    var n := FirstSlash(p[1..]);
    token, rest := p[1..][..n], p[1..][n..];
    assert p == ("/" + token) + rest;
  }

  lemma {:induction false} ResolvesListed(v: Json, f: Field)
    requires Valid(v) && ShowsLeaf(v, f)
    ensures f in Leaves(v)
    decreases v, 0
  {
    hide Escape, Decimal, Leaves, Resolve, Unescape, ParseIndex, Member;
    if f.pointer == "" {
      ResolveEmpty(v);
      ScalarLeaves(v.leaf);
    } else {
      var token, rest := FirstToken(v, f.pointer);
      var g := Field(rest, f.preview);
      match v
      case Object(ms) =>
        var k := Unescape(token).value;
        EscapeExact(token, k);
        var i := MemberFound(ms, k);
        assert ms[i].1 < ms[i];
        ListedIff(ms[i].1, g);
        MemberListed(ms, i, g);
        ObjectLeaves(ms);
      case Array(items) =>
        var i := ParseIndex(token).value;
        DecimalExact(token, i);
        ListedIff(items[i], g);
        ItemListed(items, 0, i, g);
        ArrayLeaves(items);
    }
  }

  /** Null is shown as `null`, a string as itself and a number as it is spelled, each up to 48
      characters; beyond that, the first 48 and an ellipsis. */
  lemma {:induction false} PreviewExact(leaf: Leaf, t: Text)
    requires (leaf == Nothing && t == ["n", "u", "l", "l"]) || leaf == Words(t) || leaf == Figure(t)
    ensures PreviewText(leaf) == if |t| <= 48 then t else t[..48] + ["\U{2026}"]
  {
  }

  // ------------------------------------------------------------ no pointer twice

  ghost predicate NoRepeats(s: seq<Field>) { forall i, j :: 0 <= i < j < |s| ==> s[i].pointer != s[j].pointer }

  lemma NoRepeatsAppend(a: seq<Field>, b: seq<Field>)
    requires NoRepeats(a) && NoRepeats(b) && forall f, g :: f in a && g in b ==> f.pointer != g.pointer
    ensures NoRepeats(a + b)
  {
    var s := a + b;
    forall i, j | 0 <= i < j < |s| ensures s[i].pointer != s[j].pointer {
      if i < |a| <= j { assert s[i] in a && s[j] in b; }
    }
  }

  lemma NoRepeatsPrefix(p: string, s: seq<Field>)
    requires NoRepeats(s)
    ensures NoRepeats(Prefix(p, s))
  {
    var r := Prefix(p, s);
    forall i, j | 0 <= i < j < |r| ensures r[i].pointer != r[j].pointer {
      if r[i].pointer == r[j].pointer { CutEqual(p, s[i].pointer, p, s[j].pointer); }
    }
  }

  /** No pointer is listed twice. */
  lemma {:induction false} LeavesDistinct(v: Json)
    requires Valid(v)
    ensures NoRepeats(Leaves(v))
    decreases v, 1
  {
    hide Leaves;
    match v
    case Object(ms) =>
      ObjectLeaves(ms);
      assert forall i :: 0 <= i < |ms| ==> ms[i].1 < ms[i];
      MembersDistinct(ms);
    case Array(items) => ArrayLeaves(items); ItemsDistinct(items, 0);
    case Scalar(leaf) => ScalarLeaves(leaf);
  }

  lemma {:induction false} MembersDistinct(ms: seq<(string, Json)>)
    requires forall i, j :: 0 <= i < j < |ms| ==> ms[i].0 != ms[j].0
    requires forall i :: 0 <= i < |ms| ==> Valid(ms[i].1)
    ensures NoRepeats(MemberLeaves(ms))
    decreases ms, 0
  {
    hide Escape, Leaves, Valid;
    if ms != [] {
      assert ms[0].1 < ms[0];
      var here, more := Prefix("/" + Escape(ms[0].0), Leaves(ms[0].1)), MemberLeaves(ms[1..]);
      LeavesDistinct(ms[0].1);
      NoRepeatsPrefix("/" + Escape(ms[0].0), Leaves(ms[0].1));
      MembersDistinct(ms[1..]);
      forall f, g | f in here && g in more ensures f.pointer != g.pointer {
        var k :| 0 <= k < |here| && here[k] == f;
        var i, h := InMembers(ms[1..], g);
        assert ms[1..][i] == ms[i + 1];
        KeysDiffer(ms[0].0, ms[0].1, Leaves(ms[0].1)[k], ms[i + 1].0, ms[i + 1].1, h);
      }
      NoRepeatsAppend(here, more);
    }
  }

  lemma KeysDiffer(k: string, v: Json, f: Field, l: string, w: Json, g: Field)
    requires k != l && f in Leaves(v) && g in Leaves(w)
    ensures Under("/" + Escape(k), f).pointer != Under("/" + Escape(l), g).pointer
  {
    hide Escape, Leaves;
    LeavesContinue(v, f);
    LeavesContinue(w, g);
    EscapeHasNoSlash(k);
    EscapeHasNoSlash(l);
    EscapeExact(Escape(k), k);
    EscapeExact(Escape(k), l);
    if ("/" + Escape(k)) + f.pointer == ("/" + Escape(l)) + g.pointer {
      TokenUnique(Escape(k), f.pointer, Escape(l), g.pointer);
    }
  }

  lemma {:induction false} ItemsDistinct(items: seq<Json>, from: nat)
    requires forall i :: 0 <= i < |items| ==> Valid(items[i])
    ensures NoRepeats(ItemLeaves(items, from))
    decreases items, 0
  {
    hide Decimal, Leaves, Valid;
    if items != [] {
      var here, more := Prefix("/" + Decimal(from), Leaves(items[0])), ItemLeaves(items[1..], from + 1);
      LeavesDistinct(items[0]);
      NoRepeatsPrefix("/" + Decimal(from), Leaves(items[0]));
      ItemsDistinct(items[1..], from + 1);
      forall f, g | f in here && g in more ensures f.pointer != g.pointer {
        var k :| 0 <= k < |here| && here[k] == f;
        var i, h := InItems(items[1..], from + 1, g);
        IndicesDiffer(from, items[0], Leaves(items[0])[k], from + 1 + i, items[1..][i], h);
      }
      NoRepeatsAppend(here, more);
    }
  }

  lemma IndicesDiffer(m: nat, v: Json, f: Field, n: nat, w: Json, g: Field)
    requires m != n && f in Leaves(v) && g in Leaves(w)
    ensures Under("/" + Decimal(m), f).pointer != Under("/" + Decimal(n), g).pointer
  {
    hide Decimal, Leaves;
    LeavesContinue(v, f);
    LeavesContinue(w, g);
    DecimalHasNoSlash(m);
    DecimalHasNoSlash(n);
    DecimalExact(Decimal(m), m);
    DecimalExact(Decimal(m), n);
    if ("/" + Decimal(m)) + f.pointer == ("/" + Decimal(n)) + g.pointer {
      TokenUnique(Decimal(m), f.pointer, Decimal(n), g.pointer);
    }
  }

  /** The picker's list is the first 200 of the full listing: distinct pointers, each shown with the
      preview of the leaf it resolves to, and every leaf of the body when there are no more than 200. */
  lemma {:induction false} FieldsCorrect(root: Json)
    requires Valid(root)
    ensures Fields(root).None? <==> root.Scalar?
    ensures Fields(root).Some? ==>
      var fs := Fields(root).value;
      && NoRepeats(fs) && fs <= Leaves(root)
      && |fs| == (if |Leaves(root)| <= MAX_FIELDS then |Leaves(root)| else MAX_FIELDS)
      && (forall f :: f in fs ==> ShowsLeaf(root, f))
      && (|Leaves(root)| <= MAX_FIELDS ==> forall f :: ShowsLeaf(root, f) ==> f in fs)
  {
    hide Leaves, ShowsLeaf, Valid;
    LeavesDistinct(root);
    forall f ensures f in Leaves(root) <==> ShowsLeaf(root, f) { ListedIff(root, f); }
    assert forall f :: f in Capped(Leaves(root)) ==> f in Leaves(root);
  }

  // ------------------------------------------------------------ the traversal as it runs

  class FieldList {
    var fields: seq<Field>

    constructor ()
      ensures fields == []
    {
      fields := [];
    }
  }

  /** The field of a leaf; a scalar body would be written "/". */
  function LeafField(pointer: string, leaf: Leaf): (f: Field) {
    Field(if pointer == "" then "/" else pointer, PreviewText(leaf))
  }

  /** What one visit contributes. */
  function Visited(v: Json, pointer: string): (r: seq<Field>) {
    if v.Scalar? && pointer == "" then [LeafField(pointer, v.leaf)] else Prefix(pointer, Leaves(v))
  }

  lemma CappedTwice(a: seq<Field>, b: seq<Field>)
    ensures Capped(Capped(a) + b) == Capped(a + b)
    ensures |a| >= MAX_FIELDS ==> Capped(a + b) == Capped(a)
  {
  }

  lemma {:induction false} MemberLeavesSnoc(ms: seq<(string, Json)>, i: nat)
    requires i < |ms|
    ensures MemberLeaves(ms[..i + 1]) == MemberLeaves(ms[..i]) + Prefix("/" + Escape(ms[i].0), Leaves(ms[i].1))
  {
    hide Escape, Leaves;
    if i == 0 {
      assert ms[..1][1..] == [] && ms[..0] == [];
    } else {
      MemberLeavesSnoc(ms[1..], i - 1);
      assert ms[1..][..i] == ms[..i + 1][1..] && ms[1..][..i - 1] == ms[..i][1..];
    }
  }

  lemma {:induction false} ItemLeavesSnoc(items: seq<Json>, i: nat, from: nat)
    requires i < |items|
    ensures ItemLeaves(items[..i + 1], from)
         == ItemLeaves(items[..i], from) + Prefix("/" + Decimal(from + i), Leaves(items[i]))
    decreases i
  {
    hide Decimal, Leaves;
    if i == 0 {
      assert items[..1][1..] == [] && items[..0] == [];
    } else {
      ItemLeavesSnoc(items[1..], i - 1, from + 1);
      assert items[1..][..i] == items[..i + 1][1..] && items[1..][..i - 1] == items[..i][1..];
    }
  }

  lemma PrefixAppend(p: string, a: seq<Field>, q: string, b: seq<Field>)
    ensures Prefix(p, a + Prefix(q, b)) == Prefix(p, a) + Prefix(p + q, b)
  {
    forall i | 0 <= i < |b| ensures Under(p, Under(q, b[i])) == Under(p + q, b[i]) {
      assert p + (q + b[i].pointer) == (p + q) + b[i].pointer;
    }
    assert |Prefix(p, a + Prefix(q, b))| == |a| + |b|;
  }

  /** Stopping at 200 fields, anywhere in the tree, leaves the first 200 of the full listing. */
  method Flatten(v: Json, pointer: string, out: FieldList)
    requires |out.fields| <= MAX_FIELDS
    modifies out
    ensures out.fields == Capped(old(out.fields) + Visited(v, pointer))
    decreases v, 1
  {
    hide Escape, Decimal, Leaves, MemberLeaves, ItemLeaves;
    if |out.fields| >= MAX_FIELDS {
      CappedTwice(out.fields, Visited(v, pointer));
      return;
    }
    match v
    case Object(ms) => FlattenObject(ms, pointer, out); ObjectLeaves(ms);
    case Array(items) => FlattenArray(items, pointer, out); ArrayLeaves(items);
    case Scalar(leaf) =>
      ScalarLeaves(leaf);
      assert Visited(v, pointer) == [LeafField(pointer, leaf)] by { assert pointer + "" == pointer; }
      out.fields := out.fields + [LeafField(pointer, leaf)];
  }

  method FlattenObject(ms: seq<(string, Json)>, pointer: string, out: FieldList)
    requires |out.fields| <= MAX_FIELDS
    modifies out
    ensures out.fields == Capped(old(out.fields) + Prefix(pointer, MemberLeaves(ms)))
    decreases ms, 0
  {
    hide Escape, Leaves, MemberLeaves, Prefix, Capped, Visited;
    ghost var start := out.fields;
    NothingVisited(start, pointer);
    assert ms[..0] == [];
    for i := 0 to |ms|
      invariant out.fields == Capped(start + Prefix(pointer, MemberLeaves(ms[..i])))
    {
      var key := "/" + Escape(ms[i].0);
      assert ms[i].1 < ms[i];
      Flatten(ms[i].1, pointer + key, out);
      MemberLeavesSnoc(ms, i);
      VisitStep(start, pointer, MemberLeaves(ms[..i]), key, ms[i].1);
    }
    assert ms[..|ms|] == ms;
  }

  lemma NothingVisited(start: seq<Field>, pointer: string)
    requires |start| <= MAX_FIELDS
    ensures Capped(start + Prefix(pointer, MemberLeaves([]))) == start
    ensures Capped(start + Prefix(pointer, ItemLeaves([], 0))) == start
  {
    assert Prefix(pointer, []) == [] && start + [] == start;
  }

  /** One more child, capped on the way in and on the way out. */
  lemma VisitStep(start: seq<Field>, pointer: string, before: seq<Field>, step: string, child: Json)
    requires step != ""
    ensures Capped(Capped(start + Prefix(pointer, before)) + Visited(child, pointer + step))
         == Capped(start + Prefix(pointer, before + Prefix(step, Leaves(child))))
  {
    hide Leaves, Capped, Prefix;
    var done, more := Prefix(pointer, before), Prefix(pointer + step, Leaves(child));
    PrefixAppend(pointer, before, step, Leaves(child));
    CappedTwice(start + done, more);
    assert (start + done) + more == start + (done + more);
  }

  method FlattenArray(items: seq<Json>, pointer: string, out: FieldList)
    requires |out.fields| <= MAX_FIELDS
    modifies out
    ensures out.fields == Capped(old(out.fields) + Prefix(pointer, ItemLeaves(items, 0)))
    decreases items, 0
  {
    hide Decimal, Leaves, ItemLeaves, Prefix, Capped, Visited;
    ghost var start := out.fields;
    NothingVisited(start, pointer);
    assert items[..0] == [];
    for i := 0 to |items|
      invariant out.fields == Capped(start + Prefix(pointer, ItemLeaves(items[..i], 0)))
    {
      var index := "/" + Decimal(i);
      Flatten(items[i], pointer + index, out);
      ItemLeavesSnoc(items, i, 0);
      VisitStep(start, pointer, ItemLeaves(items[..i], 0), index, items[i]);
    }
    assert items[..|items|] == items;
  }

  method ListFields(root: Json) returns (r: Option<seq<Field>>)
    ensures r == Fields(root)
  {
    hide Leaves;
    if root.Scalar? { return None; }
    var out := new FieldList();
    Flatten(root, "", out);
    forall i | 0 <= i < |Leaves(root)| ensures Under("", Leaves(root)[i]) == Leaves(root)[i] {
      assert "" + Leaves(root)[i].pointer == Leaves(root)[i].pointer;
    }
    assert Prefix("", Leaves(root)) == Leaves(root);
    assert [] + Leaves(root) == Leaves(root);
    r := Some(out.fields);
  }
}
