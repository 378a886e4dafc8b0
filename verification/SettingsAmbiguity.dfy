/// When the byte stream behind hashSettingsType tells types apart (SettingsTypeWalk in
/// engine/assetpipe/src/importer.cpp). The stream does not say whether an enum's underlying type follows
/// (importer.cpp:75-82), so it depends on whether the types' heads do.
module SettingsAmbiguity {
  import opened ByteStrings
  import opened Options
  import opened SettingsWalk

  /// Over the types that `allowed` admits, equal bytes mean isomorphic types.
  ghost predicate TellsApart(allowed: (Head, bool) -> bool) {
    forall g: Graph, v: TypeRef, h: Graph, w: TypeRef {:trigger Hashed(g, v, allowed), Hashed(h, w, allowed)} ::
      Hashed(g, v, allowed) && Hashed(h, w, allowed) && Written(g, v, allowed) == Written(h, w, allowed) ==>
        Isomorphic(g, v, h, w, allowed)
  }

  // -- Two maps that write the same bytes -----------------------------------------------------------

  /// Two integer types that an enum can have underneath.
  const U8_HEAD := Head(Scalar(5), [117, 56], 8, 0, 0)
  const U16_HEAD := Head(Scalar(6), [117, 49, 54], 16, 0, 0)
  const OUTER_HEAD := Head(Map, [], 1, 0, 0)
  const INNER_HEAD := Head(Map, [], 2, 0, 0)

  function Part<T>(t: T): Row<T> {
    Row(NoLabel, Some(t))
  }

  function Whole<T>(head: Head, parts: seq<Row<T>>): Node<T> {
    Node(head, [], parts)
  }

  /// A map from a map (from the enum `e` to u8) to the enum `f` over u16.
  function ValueOverU16(e: Head, f: Head): Graph {
    [Whole(OUTER_HEAD, [Part(1), Part(4)]), Whole(INNER_HEAD, [Part(2), Part(3)]), Whole(e, []), Whole(U8_HEAD, []),
     Whole(f, [Part(5)]), Whole(U16_HEAD, [])]
  }

  /// A map from a map (from the enum `e` over u8 to the enum `f`) to u16.
  function KeyOverU8(e: Head, f: Head): Graph {
    [Whole(OUTER_HEAD, [Part(1), Part(5)]), Whole(INNER_HEAD, [Part(2), Part(4)]), Whole(e, [Part(3)]),
     Whole(U8_HEAD, []),
     Whole(f, []), Whole(U16_HEAD, [])]
  }

  predicate EnumFits(h: Head) {
    HeadFits(h) && IsEnum(h.kind)
  }

  lemma WholeOk(head: Head, parts: seq<Row<TypeRef>>, n: nat, allowed: (Head, bool) -> bool)
    requires HeadFits(head) && !head.kind.Array? && TailFits(head, |parts|, allowed)
    requires forall i :: 0 <= i < |parts| ==> parts[i].text.NoLabel? && parts[i].child.Some? && parts[i].child.value < n
    ensures NodeOk(Whole(head, parts), allowed)
    ensures forall g: Graph :: |g| == n ==> PartsOk(g, Whole(head, parts).rows) && PartsOk(g, Whole(head, parts).tail)
  {
  }

  lemma ValueOk(e: Head, f: Head, allowed: (Head, bool) -> bool)
    requires EnumFits(e) && EnumFits(f) && allowed(e, false) && allowed(f, true)
    ensures GraphOk(ValueOverU16(e, f), allowed)
  {
    WholeOk(OUTER_HEAD, [Part(1), Part(4)], 6, allowed);
    WholeOk(INNER_HEAD, [Part(2), Part(3)], 6, allowed);
    WholeOk(e, [], 6, allowed);
    WholeOk(U8_HEAD, [], 6, allowed);
    WholeOk(f, [Part(5)], 6, allowed);
    WholeOk(U16_HEAD, [], 6, allowed);
    hide NodeOk, PartsOk;
  }

  lemma KeyOk(e: Head, f: Head, allowed: (Head, bool) -> bool)
    requires EnumFits(e) && EnumFits(f) && allowed(e, true) && allowed(f, false)
    ensures GraphOk(KeyOverU8(e, f), allowed)
  {
    WholeOk(OUTER_HEAD, [Part(1), Part(5)], 6, allowed);
    WholeOk(INNER_HEAD, [Part(2), Part(4)], 6, allowed);
    WholeOk(e, [Part(3)], 6, allowed);
    WholeOk(U8_HEAD, [], 6, allowed);
    WholeOk(f, [], 6, allowed);
    WholeOk(U16_HEAD, [], 6, allowed);
    hide NodeOk, PartsOk;
  }

  lemma WalkNone(g: Graph, v: TypeRef, depth: nat, seen: seq<TypeRef>, allowed: (Head, bool) -> bool)
    requires GraphOk(g, allowed) && v < |g| && depth <= MAX_DEPTH && v !in seen
    requires g[v].rows == [] && g[v].tail == []
    ensures Walk(g, v, depth, seen, allowed) == Some((Visit(Whole(g[v].head, [])), seen + [v]))
  {
  }

  lemma WalkOne(g: Graph, v: TypeRef, a: TypeRef, depth: nat, seen: seq<TypeRef>, allowed: (Head, bool) -> bool,
                t: Tree, after: seq<TypeRef>)
    requires GraphOk(g, allowed) && v < |g| && a < |g| && depth < MAX_DEPTH && v !in seen
    requires g[v].rows == [] && g[v].tail == [Part(a)]
    requires Walk(g, a, depth + 1, seen + [v], allowed) == Some((t, after))
    ensures Walk(g, v, depth, seen, allowed) == Some((Visit(Whole(g[v].head, [Part(t)])), after))
  {
    hide Walk, NodeOk;
    assert g[v].tail[1..] == [];
    assert WalkRow(g, g[v].tail[0], depth, seen + [v], allowed) == Some((Part(t), after));
    assert WalkRows(g, g[v].tail[1..], depth, after, allowed) == Some(([], after));
    assert [Part(t)] + [] == [Part(t)];
    WalkParts(g, v, depth, seen, allowed, [Part(t)], after);
  }

  lemma WalkTwo(g: Graph, v: TypeRef, a: TypeRef, b: TypeRef, depth: nat, seen: seq<TypeRef>,
                allowed: (Head, bool) -> bool, t: Tree, between: seq<TypeRef>, u: Tree, after: seq<TypeRef>)
    requires GraphOk(g, allowed) && v < |g| && a < |g| && b < |g| && depth < MAX_DEPTH && v !in seen
    requires g[v].rows == [] && g[v].tail == [Part(a), Part(b)]
    requires Walk(g, a, depth + 1, seen + [v], allowed) == Some((t, between))
    requires Walk(g, b, depth + 1, between, allowed) == Some((u, after))
    ensures Walk(g, v, depth, seen, allowed) == Some((Visit(Whole(g[v].head, [Part(t), Part(u)])), after))
  {
    hide Walk, NodeOk;
    var tail := g[v].tail;
    assert tail[1..] == [Part(b)] && tail[1..][1..] == [];
    assert WalkRow(g, tail[0], depth, seen + [v], allowed) == Some((Part(t), between));
    assert WalkRow(g, tail[1..][0], depth, between, allowed) == Some((Part(u), after));
    assert WalkRows(g, tail[1..][1..], depth, after, allowed) == Some(([], after));
    assert [Part(u)] + [] == [Part(u)] && [Part(t)] + [Part(u)] == [Part(t), Part(u)];
    WalkParts(g, v, depth, seen, allowed, [Part(t), Part(u)], after);
  }

  lemma WalkParts(g: Graph, v: TypeRef, depth: nat, seen: seq<TypeRef>, allowed: (Head, bool) -> bool,
                  parts: seq<Row<Tree>>, after: seq<TypeRef>)
    requires GraphOk(g, allowed) && v < |g| && depth <= MAX_DEPTH && v !in seen && g[v].rows == []
    requires WalkRows(g, g[v].tail, depth, seen + [v], allowed) == Some((parts, after))
    ensures Walk(g, v, depth, seen, allowed) == Some((Visit(Whole(g[v].head, parts)), after))
  {
    assert WalkRows(g, g[v].rows, depth, seen + [v], allowed) == Some(([], seen + [v]));
  }

  function Leaf(head: Head): Tree {
    Visit(Whole(head, []))
  }

  function ValueTree(e: Head, f: Head): Tree {
    Visit(Whole(OUTER_HEAD, [Part(Visit(Whole(INNER_HEAD, [Part(Leaf(e)), Part(Leaf(U8_HEAD))]))),
                             Part(Visit(Whole(f, [Part(Leaf(U16_HEAD))])))]))
  }

  function KeyTree(e: Head, f: Head): Tree {
    var over := Visit(Whole(e, [Part(Leaf(U8_HEAD))]));
    Visit(Whole(OUTER_HEAD, [Part(Visit(Whole(INNER_HEAD, [Part(over), Part(Leaf(f))]))), Part(Leaf(U16_HEAD))]))
  }

  lemma Numbering()
    ensures [] + [0] == [0] && [0] + [1] == [0, 1] && [0, 1] + [2] == [0, 1, 2] && [0, 1, 2] + [3] == [0, 1, 2, 3]
    ensures [0, 1, 2, 3] + [4] == [0, 1, 2, 3, 4] && [0, 1, 2, 3, 4] + [5] == [0, 1, 2, 3, 4, 5]
  {
  }

  lemma WalkValue(e: Head, f: Head, allowed: (Head, bool) -> bool)
    requires GraphOk(ValueOverU16(e, f), allowed)
    ensures Walk(ValueOverU16(e, f), 0, 0, [], allowed) == Some((ValueTree(e, f), [0, 1, 2, 3, 4, 5]))
  {
    hide Walk, GraphOk;
    var g := ValueOverU16(e, f);
    Numbering();
    WalkNone(g, 2, 2, [0, 1], allowed);
    WalkNone(g, 3, 2, [0, 1, 2], allowed);
    WalkTwo(g, 1, 2, 3, 1, [0], allowed, Leaf(e), [0, 1, 2], Leaf(U8_HEAD), [0, 1, 2, 3]);
    WalkNone(g, 5, 2, [0, 1, 2, 3, 4], allowed);
    WalkOne(g, 4, 5, 1, [0, 1, 2, 3], allowed, Leaf(U16_HEAD), [0, 1, 2, 3, 4, 5]);
    WalkTwo(g, 0, 1, 4, 0, [], allowed, Visit(Whole(INNER_HEAD, [Part(Leaf(e)), Part(Leaf(U8_HEAD))])), [0, 1, 2, 3],
            Visit(Whole(f, [Part(Leaf(U16_HEAD))])), [0, 1, 2, 3, 4, 5]);
  }

  lemma WalkKey(e: Head, f: Head, allowed: (Head, bool) -> bool)
    requires GraphOk(KeyOverU8(e, f), allowed)
    ensures Walk(KeyOverU8(e, f), 0, 0, [], allowed) == Some((KeyTree(e, f), [0, 1, 2, 3, 4, 5]))
  {
    hide Walk, GraphOk;
    var g := KeyOverU8(e, f);
    Numbering();
    WalkNone(g, 3, 3, [0, 1, 2], allowed);
    WalkOne(g, 2, 3, 2, [0, 1], allowed, Leaf(U8_HEAD), [0, 1, 2, 3]);
    WalkNone(g, 4, 2, [0, 1, 2, 3], allowed);
    WalkTwo(g, 1, 2, 4, 1, [0], allowed, Visit(Whole(e, [Part(Leaf(U8_HEAD))])), [0, 1, 2, 3], Leaf(f),
            [0, 1, 2, 3, 4]);
    WalkNone(g, 5, 1, [0, 1, 2, 3, 4], allowed);
    WalkTwo(g, 0, 1, 5, 0, [], allowed,
            Visit(Whole(INNER_HEAD, [Part(Visit(Whole(e, [Part(Leaf(U8_HEAD))]))), Part(Leaf(f))])),
            [0, 1, 2, 3, 4], Leaf(U16_HEAD), [0, 1, 2, 3, 4, 5]);
  }

  // -- Their bytes -------------------------------------------------------------------------------------

  /// What a type without counted parts writes before its other parts.
  function Begin(head: Head): seq<Byte> {
    [TAG_TYPE] + (HeadBytes(head) + if Counted(head.kind) then Bytes64(0) else [])
  }

  lemma BeginThen(head: Head, parts: seq<Row<Tree>>, allowed: (Head, bool) -> bool)
    requires TreeOk(Visit(Whole(head, parts)), allowed)
    ensures TreeBytes(Visit(Whole(head, parts)), allowed) == Begin(head) + RowsBytes(parts, allowed)
  {
    var h, c, b := HeadBytes(head), if Counted(head.kind) then Bytes64(0) else [], RowsBytes(parts, allowed);
    assert RowsBytes([], allowed) == [] && [] + b == b;
    Assoc(h, c, b);
    Assoc([TAG_TYPE], h + c, b);
  }

  lemma BytesOfLeaf(head: Head, allowed: (Head, bool) -> bool)
    requires TreeOk(Leaf(head), allowed)
    ensures TreeBytes(Leaf(head), allowed) == Begin(head)
  {
    BeginThen(head, [], allowed);
    assert Begin(head) + [] == Begin(head);
  }

  lemma BytesOfOne(head: Head, t: Tree, allowed: (Head, bool) -> bool)
    requires TreeOk(Visit(Whole(head, [Part(t)])), allowed)
    ensures TreeOk(t, allowed)
    ensures TreeBytes(Visit(Whole(head, [Part(t)])), allowed) == Begin(head) + TreeBytes(t, allowed)
  {
    BeginThen(head, [Part(t)], allowed);
    OneRow(t, allowed);
  }

  lemma OneRow(t: Tree, allowed: (Head, bool) -> bool)
    requires RowsOk([Part(t)], allowed)
    ensures TreeOk(t, allowed) && RowsBytes([Part(t)], allowed) == TreeBytes(t, allowed)
  {
    assert [Part(t)][0] == Part(t);
    assert [Part(t)][1..] == [] && RowsBytes([], allowed) == [];
    assert TreeBytes(t, allowed) + [] == TreeBytes(t, allowed) && [] + TreeBytes(t, allowed) == TreeBytes(t, allowed);
  }

  lemma BytesOfTwo(head: Head, t: Tree, u: Tree, allowed: (Head, bool) -> bool)
    requires TreeOk(Visit(Whole(head, [Part(t), Part(u)])), allowed)
    ensures TreeOk(t, allowed) && TreeOk(u, allowed)
    ensures TreeBytes(Visit(Whole(head, [Part(t), Part(u)])), allowed) ==
            Begin(head) + (TreeBytes(t, allowed) + TreeBytes(u, allowed))
  {
    var rows := [Part(t), Part(u)];
    BeginThen(head, rows, allowed);
    assert rows[0] == Part(t) && rows[1] == Part(u) && rows[1..] == [Part(u)];
    OneRow(u, allowed);
    var b := TreeBytes(t, allowed) + TreeBytes(u, allowed);
    assert [] + b == b;
  }

  /// Both maps write the same heads in the same order.
  function Stream(e: Head, f: Head): seq<Byte> {
    Begin(OUTER_HEAD) + (Begin(INNER_HEAD) + (Begin(e) + (Begin(U8_HEAD) + (Begin(f) + Begin(U16_HEAD)))))
  }

  lemma ValueBytes(e: Head, f: Head, allowed: (Head, bool) -> bool)
    requires TreeOk(ValueTree(e, f), allowed)
    ensures TreeBytes(ValueTree(e, f), allowed) == Stream(e, f)
  {
    hide TreeOk, TreeBytes, Begin;
    var key := Visit(Whole(INNER_HEAD, [Part(Leaf(e)), Part(Leaf(U8_HEAD))]));
    var value := Visit(Whole(f, [Part(Leaf(U16_HEAD))]));
    BytesOfTwo(OUTER_HEAD, key, value, allowed);
    BytesOfTwo(INNER_HEAD, Leaf(e), Leaf(U8_HEAD), allowed);
    BytesOfOne(f, Leaf(U16_HEAD), allowed);
    BytesOfLeaf(e, allowed);
    BytesOfLeaf(U8_HEAD, allowed);
    BytesOfLeaf(U16_HEAD, allowed);
    var i, b, c, rest := Begin(INNER_HEAD), Begin(e), Begin(U8_HEAD), Begin(f) + Begin(U16_HEAD);
    Assoc(i, b + c, rest);
    Assoc(b, c, rest);
  }

  lemma KeyBytes(e: Head, f: Head, allowed: (Head, bool) -> bool)
    requires TreeOk(KeyTree(e, f), allowed)
    ensures TreeBytes(KeyTree(e, f), allowed) == Stream(e, f)
  {
    hide TreeOk, TreeBytes, Begin;
    var over := Visit(Whole(e, [Part(Leaf(U8_HEAD))]));
    var key := Visit(Whole(INNER_HEAD, [Part(over), Part(Leaf(f))]));
    BytesOfTwo(OUTER_HEAD, key, Leaf(U16_HEAD), allowed);
    BytesOfTwo(INNER_HEAD, over, Leaf(f), allowed);
    BytesOfOne(e, Leaf(U8_HEAD), allowed);
    BytesOfLeaf(f, allowed);
    BytesOfLeaf(U8_HEAD, allowed);
    BytesOfLeaf(U16_HEAD, allowed);
    var i, b, c, d, last := Begin(INNER_HEAD), Begin(e), Begin(U8_HEAD), Begin(f), Begin(U16_HEAD);
    Assoc(i, (b + c) + d, last);
    Assoc(b + c, d, last);
    Assoc(b, c, d + last);
  }

  // -- What follows --------------------------------------------------------------------------------------

  /// Whatever two enum heads, whenever the first may come without and the second with an underlying type in one place
  /// and the other way round in another, two maps over integers and these enums write the same bytes although they are
  /// different: in one the value, in the other the key's key has the underlying type. The two heads may be the same.
  lemma OppositeEnumsCollide(e: Head, f: Head, first: (Head, bool) -> bool, second: (Head, bool) -> bool)
    requires EnumFits(e) && EnumFits(f)
    requires first(e, false) && first(f, true) && second(e, true) && second(f, false)
    ensures Hashed(ValueOverU16(e, f), 0, first) && Hashed(KeyOverU8(e, f), 0, second)
    ensures Written(ValueOverU16(e, f), 0, first) == Written(KeyOverU8(e, f), 0, second)
    ensures ValueOverU16(e, f)[2].tail == [] && KeyOverU8(e, f)[2].tail == [Part(3)]
  {
    ValueWritten(e, f, first);
    KeyWritten(e, f, second);
    hide Hashed, Written;
  }

  lemma ValueWritten(e: Head, f: Head, allowed: (Head, bool) -> bool)
    requires EnumFits(e) && EnumFits(f) && allowed(e, false) && allowed(f, true)
    ensures Hashed(ValueOverU16(e, f), 0, allowed) && Written(ValueOverU16(e, f), 0, allowed) == Stream(e, f)
  {
    ValueOk(e, f, allowed);
    hide GraphOk, Walk, TreeOk, TreeBytes, Stream, ValueTree;
    WalkValue(e, f, allowed);
    WalkKeeps(ValueOverU16(e, f), 0, 0, [], allowed);
    ValueBytes(e, f, allowed);
  }

  lemma KeyWritten(e: Head, f: Head, allowed: (Head, bool) -> bool)
    requires EnumFits(e) && EnumFits(f) && allowed(e, true) && allowed(f, false)
    ensures Hashed(KeyOverU8(e, f), 0, allowed) && Written(KeyOverU8(e, f), 0, allowed) == Stream(e, f)
  {
    KeyOk(e, f, allowed);
    hide GraphOk, Walk, TreeOk, TreeBytes, Stream, KeyTree;
    WalkKey(e, f, allowed);
    WalkKeeps(KeyOverU8(e, f), 0, 0, [], allowed);
    KeyBytes(e, f, allowed);
  }

  lemma MapsDiffer(e: Head, f: Head, allowed: (Head, bool) -> bool)
    requires Hashed(ValueOverU16(e, f), 0, allowed) && Hashed(KeyOverU8(e, f), 0, allowed)
    ensures !Isomorphic(ValueOverU16(e, f), 0, KeyOverU8(e, f), 0, allowed)
  {
    WalkValue(e, f, allowed);
    WalkKey(e, f, allowed);
    var g, h, s := ValueOverU16(e, f), KeyOverU8(e, f), [0, 1, 2, 3, 4, 5];
    assert s[2] == 2 && |g[2].tail| != |h[2].tail|;
    assert !NodesAgree(g, h, s, s, 2);
  }

  /// The stream tells all types apart exactly when no enum's head comes both with and without an underlying type.
  lemma TellsApartIffHeadsDecide(allowed: (Head, bool) -> bool)
    ensures TellsApart(allowed) <==> HeadsDecide(allowed)
  {
    if HeadsDecide(allowed) {
      forall g: Graph, v: TypeRef, h: Graph, w: TypeRef |
        Hashed(g, v, allowed) && Hashed(h, w, allowed) && Written(g, v, allowed) == Written(h, w, allowed)
        ensures Isomorphic(g, v, h, w, allowed)
      {
        EqualBytesMeanIsomorphic(g, v, h, w, allowed);
      }
    } else {
      var e :| !HeadDecides(e, allowed);
      OppositeEnumsCollide(e, e, allowed, allowed);
      MapsDiffer(e, e, allowed);
    }
  }

  /// Types that are built or generated always have their enums' underlying types, so their streams are told apart.
  lemma BuiltTypesAreToldApart()
    ensures TellsApart((h: Head, has: bool) => has)
  {
    var built := (h: Head, has: bool) => has;
    forall h ensures HeadDecides(h, built) {
    }
    TellsApartIffHeadsDecide(built);
  }
}
