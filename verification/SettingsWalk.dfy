/// The byte stream behind hashSettingsType (SettingsTypeWalk in engine/assetpipe/src/importer.cpp): a
/// walk over a possibly shared or recursive graph of types that tags and length-prefixes what it
/// writes.
module SettingsWalk {
  import opened ByteStrings
  import opened Options
  import opened OrderedSets

  type Text = Bytes

  type TypeRef = nat

  datatype Kind =
    | Scalar(code: Byte)                        // numbers, strings, names and builtin types
    | Struct | Enum | Flags | Variant
    | List | KeyedList | Set | Optional | Array | Map

  /// What a type writes before its parts.
  datatype Head = Head(kind: Kind, name: Text, id: nat, version: nat, flags: nat)

  /// What is written before a part's own type.
  datatype Label =
    | NoLabel
    | Size(n: nat)                                                      // Array
    | Field(name: Text, id: nat, flags: nat, initial: Option<Text>)     // Struct
    | Value(name: Text, value: int)                                     // Enum and Flags
    | Alternative(name: Text, id: nat)                                  // Variant

  /// A part of a type: a field, an enum value, an alternative, a key or an element.
  datatype Row<T> = Row(text: Label, child: Option<T>)

  /// `rows` are counted in the stream, `tail` has a length that the head decides.
  datatype Node<T> = Node(head: Head, rows: seq<Row<T>>, tail: seq<Row<T>>)

  type Graph = seq<Node<TypeRef>>

  // -- Widths and shapes ---------------------------------------------------------------------

  const MAX_DEPTH: nat := 64

  predicate LabelFits(l: Label) {
    match l
    case NoLabel => true
    case Size(n) => n < U32
    case Field(name, id, flags, initial) =>
      |name| < U64 && id < U32 && flags < U32 && (initial.Some? ==> |initial.value| < U64)
    case Value(name, value) => |name| < U64 && -0x8000_0000_0000_0000 <= value < 0x8000_0000_0000_0000
    case Alternative(name, id) => |name| < U64 && id < U32
  }

  predicate Counted(k: Kind) {
    k.Struct? || k.Enum? || k.Flags? || k.Variant?
  }

  predicate CountedRowOk<T>(k: Kind, r: Row<T>) {
    && LabelFits(r.text)
    && match k
       case Struct => r.text.Field? && r.child.Some?
       case Enum => r.text.Value? && r.child.None?
       case Flags => r.text.Value? && r.child.None?
       case Variant => r.text.Alternative? && r.child.Some?
       case _ => false
  }

  predicate TailRowOk<T>(k: Kind, r: Row<T>) {
    LabelFits(r.text) && r.child.Some? && if k.Array? then r.text.Size? else r.text.NoLabel?
  }

  predicate IsEnum(k: Kind) {
    k.Enum? || k.Flags?
  }

  /// How many uncounted parts a type may have. An Enum or Flags type has its underlying type as one, or none, and the
  /// stream does not say which: `allowed` is which of the two the types with a head may do.
  predicate TailFits(h: Head, length: nat, allowed: (Head, bool) -> bool) {
    match h.kind
    case Map => length == 2
    case Enum => length <= 1 && allowed(h, length == 1)
    case Flags => length <= 1 && allowed(h, length == 1)
    case Struct => length == 0
    case Variant => length == 0
    case Scalar(_) => length == 0
    case _ => length == 1
  }

  /// No head comes both with and without an underlying type.
  ghost predicate HeadsDecide(allowed: (Head, bool) -> bool) {
    forall h {:trigger HeadDecides(h, allowed)} :: HeadDecides(h, allowed)
  }

  predicate HeadDecides(h: Head, allowed: (Head, bool) -> bool) {
    HeadFits(h) && IsEnum(h.kind) ==> !(allowed(h, true) && allowed(h, false))
  }

  predicate HeadFits(h: Head) {
    && |h.name| < U64 && h.id < U32 && h.version < U32 && h.flags < U32
    && (h.kind.Scalar? ==> h.kind.code <= 12 || h.kind.code == 16)
  }

  predicate NodeOk<T>(n: Node<T>, allowed: (Head, bool) -> bool) {
    && HeadFits(n.head) && |n.rows| < U64
    && (!Counted(n.head.kind) ==> n.rows == [])
    && (forall i :: 0 <= i < |n.rows| ==> CountedRowOk(n.head.kind, n.rows[i]))
    && TailFits(n.head, |n.tail|, allowed)
    && (forall i :: 0 <= i < |n.tail| ==> TailRowOk(n.head.kind, n.tail[i]))
  }

  // -- Bytes ---------------------------------------------------------------------------------

  function Bytes32(v: nat): (b: seq<Byte>)
    ensures |b| == 4
  {
    LittleEndian(v, 4)
  }

  function Bytes64(v: nat): (b: seq<Byte>)
    ensures |b| == 8
  {
    LittleEndian(v, 8)
  }

  function TextBytes(t: Text): seq<Byte> {
    Bytes64(|t|) + t
  }

  /// The two's complement of a 64-bit value.
  function Unsigned(v: int): nat
    requires -0x8000_0000_0000_0000 <= v < 0x8000_0000_0000_0000
  {
    if v < 0 then v + U64 else v
  }

  /// Kinds are written as one byte each.
  function KindCode(k: Kind): Byte {
    match k
    case Enum => 13
    case Flags => 14
    case Struct => 15
    case List => 17
    case KeyedList => 18
    case Set => 19
    case Map => 20
    case Optional => 21
    case Array => 22
    case Variant => 23
    case Scalar(code) => code
  }

  function HeadBytes(h: Head): seq<Byte> {
    [KindCode(h.kind)] + TextBytes(h.name) + Bytes32(h.id) + Bytes32(h.version) + Bytes32(h.flags)
  }

  function LabelBytes(l: Label): seq<Byte>
    requires LabelFits(l)
  {
    match l
    case NoLabel => []
    case Size(n) => Bytes32(n)
    case Field(name, id, flags, initial) =>
      TextBytes(name) + Bytes32(id) + Bytes32(flags)
      + if initial.Some? then [1] + TextBytes(initial.value) else [0]
    case Value(name, value) => TextBytes(name) + Bytes64(Unsigned(value))
    case Alternative(name, id) => TextBytes(name) + Bytes32(id)
  }

  // -- The walk as a tree --------------------------------------------------------------------

  /// What a walk visits: a type for the first time, or one seen before by its position in
  /// first-visit order.
  datatype Tree = Back(position: nat) | Visit(node: Node<Tree>)

  ghost predicate TreeOk(t: Tree, allowed: (Head, bool) -> bool) {
    match t
    case Back(position) => position < U32
    case Visit(node) =>
      NodeOk(node, allowed) && RowsOk(node.rows, allowed) && RowsOk(node.tail, allowed)
  }

  ghost predicate RowsOk(rows: seq<Row<Tree>>, allowed: (Head, bool) -> bool) {
    forall i :: 0 <= i < |rows| ==>
      && LabelFits(rows[i].text)
      && (rows[i].child.Some? ==> assert rows[i].child < rows[i]; TreeOk(rows[i].child.value, allowed))
  }

  const TAG_TYPE: Byte := 84     // 'T'
  const TAG_SEEN: Byte := 82     // 'R'

  ghost function TreeBytes(t: Tree, allowed: (Head, bool) -> bool): seq<Byte>
    requires TreeOk(t, allowed)
  {
    match t
    case Back(position) => [TAG_SEEN] + Bytes32(position)
    case Visit(node) =>
      [TAG_TYPE] + (HeadBytes(node.head) + ((if Counted(node.head.kind) then Bytes64(|node.rows|) else [])
      + (RowsBytes(node.rows, allowed) + RowsBytes(node.tail, allowed))))
  }

  ghost function RowsBytes(rows: seq<Row<Tree>>, allowed: (Head, bool) -> bool): seq<Byte>
    requires RowsOk(rows, allowed)
  {
    if rows == [] then []
    else
      LabelBytes(rows[0].text)
      + ((if rows[0].child.Some? then assert rows[0].child < rows[0]; TreeBytes(rows[0].child.value, allowed) else [])
         + RowsBytes(rows[1..], allowed))
  }

  // -- Decodability --------------------------------------------------------------------------

  lemma Cancel(a: seq<Byte>, b: seq<Byte>, x: seq<Byte>, y: seq<Byte>)
    requires |a| == |b| && a + x == b + y
    ensures a == b && x == y
  {
    assert (a + x)[..|a|] == a && (b + y)[..|b|] == b;
    assert (a + x)[|a|..] == x && (b + y)[|b|..] == y;
  }

  lemma Cancel32(v: nat, w: nat, x: seq<Byte>, y: seq<Byte>)
    requires v < U32 && w < U32 && Bytes32(v) + x == Bytes32(w) + y
    ensures v == w && x == y
  {
    Cancel(Bytes32(v), Bytes32(w), x, y);
    Widths();
    NumberOfLittleEndian(v, 4);
    NumberOfLittleEndian(w, 4);
  }

  lemma Cancel64(v: nat, w: nat, x: seq<Byte>, y: seq<Byte>)
    requires v < U64 && w < U64 && Bytes64(v) + x == Bytes64(w) + y
    ensures v == w && x == y
  {
    Cancel(Bytes64(v), Bytes64(w), x, y);
    Widths();
    NumberOfLittleEndian(v, 8);
    NumberOfLittleEndian(w, 8);
  }

  lemma CancelText(s: Text, t: Text, x: seq<Byte>, y: seq<Byte>)
    requires |s| < U64 && |t| < U64 && TextBytes(s) + x == TextBytes(t) + y
    ensures s == t && x == y
  {
    Assoc(Bytes64(|s|), s, x);
    Assoc(Bytes64(|t|), t, y);
    Cancel64(|s|, |t|, s + x, t + y);
    Cancel(s, t, x, y);
  }

  lemma KindsDiffer(k: Kind, l: Kind)
    requires KindCode(k) == KindCode(l)
    requires k.Scalar? ==> k.code <= 12 || k.code == 16
    requires l.Scalar? ==> l.code <= 12 || l.code == 16
    ensures k == l
  {
  }

  lemma CancelHead(g: Head, h: Head, x: seq<Byte>, y: seq<Byte>)
    requires HeadFits(g) && HeadFits(h) && HeadBytes(g) + x == HeadBytes(h) + y
    ensures g == h && x == y
  {
    HeadSplits(g, x);
    HeadSplits(h, y);
    Cancel([KindCode(g.kind)], [KindCode(h.kind)], AfterKind(g, x), AfterKind(h, y));
    assert [KindCode(g.kind)][0] == [KindCode(h.kind)][0];
    KindsDiffer(g.kind, h.kind);
    CancelText(g.name, h.name, Bytes32(g.id) + (Bytes32(g.version) + (Bytes32(g.flags) + x)),
               Bytes32(h.id) + (Bytes32(h.version) + (Bytes32(h.flags) + y)));
    Cancel32(g.id, h.id, Bytes32(g.version) + (Bytes32(g.flags) + x), Bytes32(h.version) + (Bytes32(h.flags) + y));
    Cancel32(g.version, h.version, Bytes32(g.flags) + x, Bytes32(h.flags) + y);
    Cancel32(g.flags, h.flags, x, y);
  }

  function AfterKind(h: Head, x: seq<Byte>): seq<Byte> {
    TextBytes(h.name) + (Bytes32(h.id) + (Bytes32(h.version) + (Bytes32(h.flags) + x)))
  }

  lemma HeadSplits(h: Head, x: seq<Byte>)
    ensures HeadBytes(h) + x == [KindCode(h.kind)] + AfterKind(h, x)
  {
    var k, a, b, c, d := [KindCode(h.kind)], TextBytes(h.name), Bytes32(h.id), Bytes32(h.version), Bytes32(h.flags);
    Assoc(k + a + b + c, d, x);
    Assoc(k + a + b, c, d + x);
    Assoc(k + a, b, c + (d + x));
    Assoc(k, a, b + (c + (d + x)));
  }

  predicate SameSort(l: Label, m: Label) {
    (l.NoLabel? && m.NoLabel?) || (l.Size? && m.Size?) || (l.Field? && m.Field?) || (l.Value? && m.Value?)
    || (l.Alternative? && m.Alternative?)
  }

  /// Labels of the same sort that begin the same bytes are the same.
  lemma CancelLabel(l: Label, m: Label, x: seq<Byte>, y: seq<Byte>)
    requires LabelFits(l) && LabelFits(m) && LabelBytes(l) + x == LabelBytes(m) + y
    requires SameSort(l, m)
    ensures l == m && x == y
  {
    match l
    case NoLabel =>
      assert [] + x == x && [] + y == y;
    case Size(n) => Cancel32(n, m.n, x, y);
    case Alternative(name, id) =>
      Assoc(TextBytes(name), Bytes32(id), x);
      Assoc(TextBytes(m.name), Bytes32(m.id), y);
      CancelText(name, m.name, Bytes32(id) + x, Bytes32(m.id) + y);
      Cancel32(id, m.id, x, y);
    case Value(name, value) =>
      assert Unsigned(value) == Unsigned(m.value) ==> value == m.value;
      Assoc(TextBytes(name), Bytes64(Unsigned(value)), x);
      Assoc(TextBytes(m.name), Bytes64(Unsigned(m.value)), y);
      CancelText(name, m.name, Bytes64(Unsigned(value)) + x, Bytes64(Unsigned(m.value)) + y);
      Cancel64(Unsigned(value), Unsigned(m.value), x, y);
    case Field(name, id, flags, initial) =>
      FieldSplits(l, x);
      FieldSplits(m, y);
      CancelText(name, m.name, Bytes32(id) + (Bytes32(flags) + (InitialBytes(l) + x)),
                 Bytes32(m.id) + (Bytes32(m.flags) + (InitialBytes(m) + y)));
      Cancel32(id, m.id, Bytes32(flags) + (InitialBytes(l) + x), Bytes32(m.flags) + (InitialBytes(m) + y));
      Cancel32(flags, m.flags, InitialBytes(l) + x, InitialBytes(m) + y);
      CancelInitial(l, m, x, y);
  }

  function InitialBytes(l: Label): seq<Byte>
    requires l.Field?
  {
    if l.initial.Some? then [1] + TextBytes(l.initial.value) else [0]
  }

  lemma FieldSplits(l: Label, x: seq<Byte>)
    requires l.Field? && LabelFits(l)
    ensures LabelBytes(l) + x == TextBytes(l.name) + (Bytes32(l.id) + (Bytes32(l.flags) + (InitialBytes(l) + x)))
  {
    var a, b, c, d := TextBytes(l.name), Bytes32(l.id), Bytes32(l.flags), InitialBytes(l);
    Assoc(a + b + c, d, x);
    Assoc(a + b, c, d + x);
    Assoc(a, b, c + (d + x));
  }

  lemma CancelInitial(l: Label, m: Label, x: seq<Byte>, y: seq<Byte>)
    requires l.Field? && m.Field? && LabelFits(l) && LabelFits(m) && InitialBytes(l) + x == InitialBytes(m) + y
    ensures l.initial == m.initial && x == y
  {
    assert (InitialBytes(l) + x)[0] == (InitialBytes(m) + y)[0];
    if l.initial.Some? {
      Assoc([1], TextBytes(l.initial.value), x);
      Assoc([1], TextBytes(m.initial.value), y);
      Cancel([1], [1], TextBytes(l.initial.value) + x, TextBytes(m.initial.value) + y);
      CancelText(l.initial.value, m.initial.value, x, y);
    } else {
      Cancel([0], [0], x, y);
    }
  }

  /// Parts that are told apart by nothing but what the stream says.
  predicate SameParts<T>(a: seq<Row<T>>, b: seq<Row<T>>) {
    |a| == |b| && forall i :: 0 <= i < |a| ==> SameSort(a[i].text, b[i].text) && a[i].child.Some? == b[i].child.Some?
  }

  lemma SamePartsOfOneHead<T>(a: Node<T>, b: Node<T>, allowed: (Head, bool) -> bool)
    requires HeadsDecide(allowed)
    requires NodeOk(a, allowed) && NodeOk(b, allowed) && a.head == b.head && |a.rows| == |b.rows|
    ensures SameParts(a.rows, b.rows) && SameParts(a.tail, b.tail)
  {
    assert HeadDecides(a.head, allowed);
  }

  /// The stream is decodable: no tree's bytes begin another tree's.
  lemma {:induction false} TreesDecode(t: Tree, u: Tree, x: seq<Byte>, y: seq<Byte>, allowed: (Head, bool) -> bool)
    requires HeadsDecide(allowed)
    requires TreeOk(t, allowed) && TreeOk(u, allowed)
    requires TreeBytes(t, allowed) + x == TreeBytes(u, allowed) + y
    ensures t == u && x == y
    decreases t
  {
    FirstByte(t, x, allowed);
    FirstByte(u, y, allowed);
    match t
    case Back(position) =>
      Assoc([TAG_SEEN], Bytes32(position), x);
      Assoc([TAG_SEEN], Bytes32(u.position), y);
      Cancel([TAG_SEEN], [TAG_SEEN], Bytes32(position) + x, Bytes32(u.position) + y);
      Cancel32(position, u.position, x, y);
    case Visit(m) =>
      var n := u.node;
      VisitSplits(m, x, allowed);
      VisitSplits(n, y, allowed);
      Cancel([TAG_TYPE], [TAG_TYPE], HeadBytes(m.head) + AfterHead(m, x, allowed),
             HeadBytes(n.head) + AfterHead(n, y, allowed));
      CancelHead(m.head, n.head, AfterHead(m, x, allowed), AfterHead(n, y, allowed));
      var p, q := RowsBytes(m.tail, allowed) + x, RowsBytes(n.tail, allowed) + y;
      if Counted(m.head.kind) {
        Cancel64(|m.rows|, |n.rows|, RowsBytes(m.rows, allowed) + p, RowsBytes(n.rows, allowed) + q);
      } else {
        assert [] + (RowsBytes(m.rows, allowed) + p) == RowsBytes(m.rows, allowed) + p;
        assert [] + (RowsBytes(n.rows, allowed) + q) == RowsBytes(n.rows, allowed) + q;
      }
      SamePartsOfOneHead(m, n, allowed);
      RowsDecode(m.rows, n.rows, p, q, allowed);
      RowsDecode(m.tail, n.tail, x, y, allowed);
  }

  ghost function AfterHead(n: Node<Tree>, x: seq<Byte>, allowed: (Head, bool) -> bool): seq<Byte>
    requires RowsOk(n.rows, allowed) && RowsOk(n.tail, allowed)
  {
    (if Counted(n.head.kind) then Bytes64(|n.rows|) else [])
    + (RowsBytes(n.rows, allowed) + (RowsBytes(n.tail, allowed) + x))
  }

  lemma VisitSplits(n: Node<Tree>, x: seq<Byte>, allowed: (Head, bool) -> bool)
    requires TreeOk(Visit(n), allowed)
    ensures TreeBytes(Visit(n), allowed) + x == [TAG_TYPE] + (HeadBytes(n.head) + AfterHead(n, x, allowed))
  {
    var h, r, t := HeadBytes(n.head), RowsBytes(n.rows, allowed), RowsBytes(n.tail, allowed);
    var c := if Counted(n.head.kind) then Bytes64(|n.rows|) else [];
    assert TreeBytes(Visit(n), allowed) == [TAG_TYPE] + (h + (c + (r + t)));
    Assoc([TAG_TYPE], h + (c + (r + t)), x);
    Assoc(h, c + (r + t), x);
    Assoc(c, r + t, x);
    Assoc(r, t, x);
  }

  lemma FirstByte(t: Tree, x: seq<Byte>, allowed: (Head, bool) -> bool)
    requires TreeOk(t, allowed)
    ensures var b := TreeBytes(t, allowed) + x; |b| > 0 && b[0] == if t.Back? then TAG_SEEN else TAG_TYPE
  {
  }

  lemma {:induction false} RowsDecode(a: seq<Row<Tree>>, b: seq<Row<Tree>>, x: seq<Byte>, y: seq<Byte>,
                                      allowed: (Head, bool) -> bool)
    requires HeadsDecide(allowed)
    requires RowsOk(a, allowed) && RowsOk(b, allowed) && SameParts(a, b)
    requires RowsBytes(a, allowed) + x == RowsBytes(b, allowed) + y
    ensures a == b && x == y
    decreases a
  {
    if a == [] {
      assert [] + x == x && [] + y == y;
    } else {
      RowSplits(a, x, allowed);
      RowSplits(b, y, allowed);
      var p, q := RowsBytes(a[1..], allowed) + x, RowsBytes(b[1..], allowed) + y;
      CancelLabel(a[0].text, b[0].text, ChildBytes(a[0], allowed) + p, ChildBytes(b[0], allowed) + q);
      if a[0].child.Some? {
        assert a[0].child < a[0];
        TreesDecode(a[0].child.value, b[0].child.value, p, q, allowed);
      } else {
        assert [] + p == p && [] + q == q;
      }
      RowsDecode(a[1..], b[1..], x, y, allowed);
      assert a == [a[0]] + a[1..] && b == [b[0]] + b[1..];
    }
  }

  ghost function ChildBytes(r: Row<Tree>, allowed: (Head, bool) -> bool): seq<Byte>
    requires r.child.Some? ==> TreeOk(r.child.value, allowed)
  {
    if r.child.Some? then TreeBytes(r.child.value, allowed) else []
  }

  lemma RowSplits(rows: seq<Row<Tree>>, x: seq<Byte>, allowed: (Head, bool) -> bool)
    requires RowsOk(rows, allowed) && rows != []
    ensures RowsBytes(rows, allowed) + x
            == LabelBytes(rows[0].text) + (ChildBytes(rows[0], allowed) + (RowsBytes(rows[1..], allowed) + x))
  {
    var l, c, r := LabelBytes(rows[0].text), ChildBytes(rows[0], allowed), RowsBytes(rows[1..], allowed);
    assert RowsBytes(rows, allowed) == l + (c + r);
    Assoc(l, c + r, x);
    Assoc(c, r, x);
  }

  // -- Walking a graph -----------------------------------------------------------------------

  ghost predicate PartsOk(g: Graph, rows: seq<Row<TypeRef>>) {
    forall i :: 0 <= i < |rows| ==> LabelFits(rows[i].text) && (rows[i].child.Some? ==> rows[i].child.value < |g|)
  }

  ghost predicate GraphOk(g: Graph, allowed: (Head, bool) -> bool) {
    |g| <= U32 && forall v :: 0 <= v < |g| ==> NodeOk(g[v], allowed) && PartsOk(g, g[v].rows) && PartsOk(g, g[v].tail)
  }

  function Position(seen: seq<TypeRef>, v: TypeRef): (i: nat)
    requires v in seen
    ensures i < |seen| && seen[i] == v
  {
    if seen[|seen| - 1] == v then |seen| - 1 else Position(seen[..|seen| - 1], v)
  }

  /// The tree of a walk and the types seen by its end, or None when types nest too deep.
  ghost function Walk(g: Graph, v: TypeRef, depth: nat, seen: seq<TypeRef>, allowed: (Head, bool) -> bool)
      : Option<(Tree, seq<TypeRef>)>
    requires GraphOk(g, allowed) && v < |g| && depth <= MAX_DEPTH + 1
    decreases MAX_DEPTH + 1 - depth, 1, 0
  {
    if depth > MAX_DEPTH then None
    else if v in seen then Some((Back(Position(seen, v)), seen))
    else
      var rows := WalkRows(g, g[v].rows, depth, seen + [v], allowed);
      if rows.None? then None
      else
        var tail := WalkRows(g, g[v].tail, depth, rows.value.1, allowed);
        if tail.None? then None
        else Some((Visit(Node(g[v].head, rows.value.0, tail.value.0)), tail.value.1))
  }

  ghost function WalkRows(g: Graph, rows: seq<Row<TypeRef>>, depth: nat, seen: seq<TypeRef>,
                          allowed: (Head, bool) -> bool)
      : Option<(seq<Row<Tree>>, seq<TypeRef>)>
    requires GraphOk(g, allowed) && PartsOk(g, rows) && depth <= MAX_DEPTH
    decreases MAX_DEPTH + 1 - depth, 0, |rows|
  {
    if rows == [] then Some(([], seen))
    else
      var first := WalkRow(g, rows[0], depth, seen, allowed);
      if first.None? then None
      else
        var rest := WalkRows(g, rows[1..], depth, first.value.1, allowed);
        if rest.None? then None else Some(([first.value.0] + rest.value.0, rest.value.1))
  }

  function RowOf(text: Label, t: Option<(Tree, seq<TypeRef>)>): Option<(Row<Tree>, seq<TypeRef>)> {
    if t.None? then None else Some((Row(text, Some(t.value.0)), t.value.1))
  }

  ghost function WalkRow(g: Graph, row: Row<TypeRef>, depth: nat, seen: seq<TypeRef>, allowed: (Head, bool) -> bool)
      : Option<(Row<Tree>, seq<TypeRef>)>
    requires GraphOk(g, allowed) && (row.child.Some? ==> row.child.value < |g|) && depth <= MAX_DEPTH
    decreases MAX_DEPTH + 1 - depth, 0, 0
  {
    if row.child.None? then Some((Row(row.text, None), seen))
    else
      RowOf(row.text, Walk(g, row.child.value, depth + 1, seen, allowed))
  }

  ghost predicate SeenOk(g: Graph, seen: seq<TypeRef>) {
    NoRepeats(seen) && (forall v :: v in seen ==> v < |g|) && |seen| <= |g|
  }

  lemma SeenOneMore(g: Graph, seen: seq<TypeRef>, v: TypeRef)
    requires SeenOk(g, seen) && v < |g| && v !in seen
    ensures SeenOk(g, seen + [v])
  {
    DistinctBelow(seen + [v], |g|);
  }

  ghost predicate SameRows(rows: seq<Row<TypeRef>>, trees: seq<Row<Tree>>) {
    |trees| == |rows| && forall i :: 0 <= i < |rows| ==>
      trees[i].text == rows[i].text && (trees[i].child.Some? <==> rows[i].child.Some?)
  }

  /// A walk only adds to the types seen, each once, and yields a tree that can be written.
  lemma {:induction false} WalkKeeps(g: Graph, v: TypeRef, depth: nat, seen: seq<TypeRef>,
                                     allowed: (Head, bool) -> bool)
    requires GraphOk(g, allowed) && v < |g| && depth <= MAX_DEPTH + 1 && SeenOk(g, seen)
    ensures var w := Walk(g, v, depth, seen, allowed);
            w.Some? ==> SeenOk(g, w.value.1) && seen <= w.value.1 && v in w.value.1 && TreeOk(w.value.0, allowed)
    ensures var w := Walk(g, v, depth, seen, allowed);
            w.Some? && v !in seen ==> |seen| < |w.value.1| && w.value.1[|seen|] == v
    decreases MAX_DEPTH + 1 - depth, 1, 0
  {
    var w := Walk(g, v, depth, seen, allowed);
    if w.Some? && v !in seen {
      SeenOneMore(g, seen, v);
      WalkRowsKeep(g, g[v].rows, depth, seen + [v], allowed);
      var rows := WalkRows(g, g[v].rows, depth, seen + [v], allowed);
      WalkRowsKeep(g, g[v].tail, depth, rows.value.1, allowed);
      assert (seen + [v])[|seen|] == v && seen <= seen + [v];
      KeepsNodeOk(g[v], w.value.0.node, allowed);
    }
  }

  lemma KeepsNodeOk(n: Node<TypeRef>, t: Node<Tree>, allowed: (Head, bool) -> bool)
    requires NodeOk(n, allowed) && t.head == n.head && SameRows(n.rows, t.rows) && SameRows(n.tail, t.tail)
    ensures NodeOk(t, allowed)
  {
    forall i | 0 <= i < |t.rows| ensures CountedRowOk(t.head.kind, t.rows[i]) {
      assert CountedRowOk(n.head.kind, n.rows[i]);
    }
    forall i | 0 <= i < |t.tail| ensures TailRowOk(t.head.kind, t.tail[i]) {
      assert TailRowOk(n.head.kind, n.tail[i]);
    }
  }

  lemma {:induction false} WalkRowsKeep(g: Graph, rows: seq<Row<TypeRef>>, depth: nat, seen: seq<TypeRef>,
                                        allowed: (Head, bool) -> bool)
    requires GraphOk(g, allowed) && PartsOk(g, rows) && depth <= MAX_DEPTH && SeenOk(g, seen)
    ensures var w := WalkRows(g, rows, depth, seen, allowed);
            w.Some? ==> SeenOk(g, w.value.1) && seen <= w.value.1
                        && RowsOk(w.value.0, allowed) && SameRows(rows, w.value.0)
    decreases MAX_DEPTH + 1 - depth, 0, |rows|
  {
    var w := WalkRows(g, rows, depth, seen, allowed);
    if rows != [] && w.Some? {
      var first := WalkRow(g, rows[0], depth, seen, allowed).value;
      if rows[0].child.Some? { WalkKeeps(g, rows[0].child.value, depth + 1, seen, allowed); }
      WalkRowsKeep(g, rows[1..], depth, first.1, allowed);
      var rest := WalkRows(g, rows[1..], depth, first.1, allowed).value.0;
      forall i | 0 <= i < |rows|
        ensures w.value.0[i].text == rows[i].text && (w.value.0[i].child.Some? <==> rows[i].child.Some?)
        ensures LabelFits(w.value.0[i].text)
        ensures w.value.0[i].child.Some? ==> TreeOk(w.value.0[i].child.value, allowed)
      {
        if i > 0 { assert w.value.0[i] == rest[i - 1] && rows[1..][i - 1] == rows[i]; }
      }
    }
  }

  // -- Equal bytes mean isomorphic types -----------------------------------------------------

  /// The two types have the same number in first-visit order.
  ghost predicate Paired(s: seq<TypeRef>, t: seq<TypeRef>, v: TypeRef, w: TypeRef) {
    exists i :: 0 <= i < |s| && i < |t| && s[i] == v && t[i] == w
  }

  ghost predicate RowsAgree(s: seq<TypeRef>, t: seq<TypeRef>, a: seq<Row<TypeRef>>, b: seq<Row<TypeRef>>) {
    |a| == |b| && forall i :: 0 <= i < |a| ==> RowAgrees(s, t, a[i], b[i])
  }

  ghost predicate RowAgrees(s: seq<TypeRef>, t: seq<TypeRef>, a: Row<TypeRef>, b: Row<TypeRef>) {
    a.text == b.text && a.child.Some? == b.child.Some? && (a.child.Some? ==> Paired(s, t, a.child.value, b.child.value))
  }

  /// The k-th types seen write the same and their parts' types have the same numbers.
  ghost predicate NodesAgree(g: Graph, h: Graph, s: seq<TypeRef>, t: seq<TypeRef>, k: nat) {
    k < |s| && k < |t| && s[k] < |g| && t[k] < |h|
    && g[s[k]].head == h[t[k]].head
    && RowsAgree(s, t, g[s[k]].rows, h[t[k]].rows) && RowsAgree(s, t, g[s[k]].tail, h[t[k]].tail)
  }

  lemma RowsAgreeLater(s: seq<TypeRef>, t: seq<TypeRef>, s1: seq<TypeRef>, t1: seq<TypeRef>,
                       a: seq<Row<TypeRef>>, b: seq<Row<TypeRef>>)
    requires s <= s1 && t <= t1 && RowsAgree(s, t, a, b)
    ensures RowsAgree(s1, t1, a, b)
  {
    forall i | 0 <= i < |a| ensures RowAgrees(s1, t1, a[i], b[i]) {
      assert RowAgrees(s, t, a[i], b[i]);
      if a[i].child.Some? {
        var k :| 0 <= k < |s| && k < |t| && s[k] == a[i].child.value && t[k] == b[i].child.value;
        assert s1[k] == s[k] && t1[k] == t[k];
      }
    }
  }

  lemma NodesAgreeLater(g: Graph, h: Graph, s: seq<TypeRef>, t: seq<TypeRef>, s1: seq<TypeRef>, t1: seq<TypeRef>,
                        k: nat)
    requires s <= s1 && t <= t1 && NodesAgree(g, h, s, t, k)
    ensures NodesAgree(g, h, s1, t1, k)
  {
    RowsAgreeLater(s, t, s1, t1, g[s[k]].rows, h[t[k]].rows);
    RowsAgreeLater(s, t, s1, t1, g[s[k]].tail, h[t[k]].tail);
  }

  ghost predicate NewNodesAgree(g: Graph, h: Graph, s: seq<TypeRef>, t: seq<TypeRef>, from: nat) {
    forall k :: from <= k < |s| ==> NodesAgree(g, h, s, t, k)
  }

  lemma {:induction false} EqualWalksAgree(g: Graph, v: TypeRef, h: Graph, w: TypeRef, depth: nat,
                                           s: seq<TypeRef>, t: seq<TypeRef>, allowed: (Head, bool) -> bool)
    requires GraphOk(g, allowed) && GraphOk(h, allowed) && v < |g| && w < |h| && depth <= MAX_DEPTH + 1
    requires SeenOk(g, s) && SeenOk(h, t) && |s| == |t|
    requires Walk(g, v, depth, s, allowed).Some? && Walk(h, w, depth, t, allowed).Some?
    requires Walk(g, v, depth, s, allowed).value.0 == Walk(h, w, depth, t, allowed).value.0
    ensures var s1, t1 := Walk(g, v, depth, s, allowed).value.1, Walk(h, w, depth, t, allowed).value.1;
            |s1| == |t1| && Paired(s1, t1, v, w) && NewNodesAgree(g, h, s1, t1, |s|)
    decreases MAX_DEPTH + 1 - depth, 1, 0
  {
    WalkKeeps(g, v, depth, s, allowed);
    WalkKeeps(h, w, depth, t, allowed);
    if v in s {
      assert s[Position(s, v)] == v && t[Position(t, w)] == w;
    } else {
      var s0, t0 := s + [v], t + [w];
      SeenOneMore(g, s, v);
      SeenOneMore(h, t, w);
      EqualRowsAgree(g, g[v].rows, h, h[w].rows, depth, s0, t0, allowed);
      var s1, t1 := WalkRows(g, g[v].rows, depth, s0, allowed).value.1,
        WalkRows(h, h[w].rows, depth, t0, allowed).value.1;
      WalkRowsKeep(g, g[v].rows, depth, s0, allowed);
      WalkRowsKeep(h, h[w].rows, depth, t0, allowed);
      EqualRowsAgree(g, g[v].tail, h, h[w].tail, depth, s1, t1, allowed);
      WalkRowsKeep(g, g[v].tail, depth, s1, allowed);
      WalkRowsKeep(h, h[w].tail, depth, t1, allowed);
      var s2, t2 := WalkRows(g, g[v].tail, depth, s1, allowed).value.1,
        WalkRows(h, h[w].tail, depth, t1, allowed).value.1;
      AllAgree(g, v, h, w, s, t, s1, t1, s2, t2);
    }
  }

  lemma AllAgree(g: Graph, v: TypeRef, h: Graph, w: TypeRef, s: seq<TypeRef>, t: seq<TypeRef>, s1: seq<TypeRef>,
                 t1: seq<TypeRef>, s2: seq<TypeRef>, t2: seq<TypeRef>)
    requires v < |g| && w < |h| && |s| == |t| && |s1| == |t1| && |s2| == |t2| && g[v].head == h[w].head
    requires s + [v] <= s1 <= s2 && t + [w] <= t1 <= t2
    requires RowsAgree(s1, t1, g[v].rows, h[w].rows) && RowsAgree(s2, t2, g[v].tail, h[w].tail)
    requires NewNodesAgree(g, h, s1, t1, |s| + 1) && NewNodesAgree(g, h, s2, t2, |s1|)
    ensures NewNodesAgree(g, h, s2, t2, |s|) && Paired(s2, t2, v, w)
  {
    assert s2[|s|] == (s + [v])[|s|] == v && t2[|t|] == (t + [w])[|t|] == w;
    RowsAgreeLater(s1, t1, s2, t2, g[v].rows, h[w].rows);
    forall k | |s| <= k < |s2| ensures NodesAgree(g, h, s2, t2, k) {
      if |s| < k < |s1| { NodesAgreeLater(g, h, s1, t1, s2, t2, k); }
    }
  }

  lemma {:induction false} EqualRowsAgree(g: Graph, a: seq<Row<TypeRef>>, h: Graph, b: seq<Row<TypeRef>>, depth: nat,
                                          s: seq<TypeRef>, t: seq<TypeRef>, allowed: (Head, bool) -> bool)
    requires GraphOk(g, allowed) && GraphOk(h, allowed) && PartsOk(g, a) && PartsOk(h, b) && depth <= MAX_DEPTH
    requires SeenOk(g, s) && SeenOk(h, t) && |s| == |t|
    requires WalkRows(g, a, depth, s, allowed).Some? && WalkRows(h, b, depth, t, allowed).Some?
    requires WalkRows(g, a, depth, s, allowed).value.0 == WalkRows(h, b, depth, t, allowed).value.0
    ensures var s1, t1 := WalkRows(g, a, depth, s, allowed).value.1, WalkRows(h, b, depth, t, allowed).value.1;
            |s1| == |t1| && RowsAgree(s1, t1, a, b) && NewNodesAgree(g, h, s1, t1, |s|)
    decreases MAX_DEPTH + 1 - depth, 0, |a|
  {
    WalkRowsKeep(g, a, depth, s, allowed);
    WalkRowsKeep(h, b, depth, t, allowed);
    if a != [] {
      var x, y := WalkRow(g, a[0], depth, s, allowed).value, WalkRow(h, b[0], depth, t, allowed).value;
      var p, q := WalkRows(g, a[1..], depth, x.1, allowed).value, WalkRows(h, b[1..], depth, y.1, allowed).value;
      assert [x.0] + p.0 == [y.0] + q.0;
      assert ([x.0] + p.0)[0] == x.0 && ([y.0] + q.0)[0] == y.0;
      assert ([x.0] + p.0)[1..] == p.0 && ([y.0] + q.0)[1..] == q.0;
      if a[0].child.Some? {
        WalkKeeps(g, a[0].child.value, depth + 1, s, allowed);
        WalkKeeps(h, b[0].child.value, depth + 1, t, allowed);
        EqualWalksAgree(g, a[0].child.value, h, b[0].child.value, depth + 1, s, t, allowed);
      }
      WalkRowsKeep(g, a[1..], depth, x.1, allowed);
      WalkRowsKeep(h, b[1..], depth, y.1, allowed);
      EqualRowsAgree(g, a[1..], h, b[1..], depth, x.1, y.1, allowed);
      RowsTogether(g, h, a, b, s, x.1, y.1, p.1, q.1);
    }
  }

  lemma RowsTogether(g: Graph, h: Graph, a: seq<Row<TypeRef>>, b: seq<Row<TypeRef>>, s: seq<TypeRef>,
                     s1: seq<TypeRef>, t1: seq<TypeRef>, s2: seq<TypeRef>, t2: seq<TypeRef>)
    requires |a| == |b| && a != [] && |s1| == |t1| && s1 <= s2 && t1 <= t2 && |s| <= |s1|
    requires RowAgrees(s1, t1, a[0], b[0]) && RowsAgree(s2, t2, a[1..], b[1..])
    requires NewNodesAgree(g, h, s1, t1, |s|) && NewNodesAgree(g, h, s2, t2, |s1|)
    ensures RowsAgree(s2, t2, a, b) && NewNodesAgree(g, h, s2, t2, |s|)
  {
    RowsAgreeLater(s1, t1, s2, t2, [a[0]], [b[0]]);
    assert RowAgrees(s2, t2, [a[0]][0], [b[0]][0]);
    forall i | 0 <= i < |a| ensures RowAgrees(s2, t2, a[i], b[i]) {
      if i > 0 { assert RowAgrees(s2, t2, a[1..][i - 1], b[1..][i - 1]); }
    }
    forall k | |s| <= k < |s2| ensures NodesAgree(g, h, s2, t2, k) {
      if k < |s1| { NodesAgreeLater(g, h, s1, t1, s2, t2, k); }
    }
  }

  /// What hashSettingsType hashes.
  ghost function Written(g: Graph, v: TypeRef, allowed: (Head, bool) -> bool): seq<Byte>
    requires GraphOk(g, allowed) && v < |g| && Walk(g, v, 0, [], allowed).Some?
  {
    WalkKeeps(g, v, 0, [], allowed);
    TreeBytes(Walk(g, v, 0, [], allowed).value.0, allowed)
  }

  /// A type that hashSettingsType accepts.
  ghost predicate Hashed(g: Graph, v: TypeRef, allowed: (Head, bool) -> bool) {
    GraphOk(g, allowed) && v < |g| && Walk(g, v, 0, [], allowed).Some?
  }

  /// The types visited in order are paired, and paired types write the same and have paired parts.
  ghost predicate Isomorphic(g: Graph, v: TypeRef, h: Graph, w: TypeRef, allowed: (Head, bool) -> bool)
    requires Hashed(g, v, allowed) && Hashed(h, w, allowed)
  {
    var s, t := Walk(g, v, 0, [], allowed).value.1, Walk(h, w, 0, [], allowed).value.1;
    NoRepeats(s) && NoRepeats(t) && |s| == |t| > 0 && s[0] == v && t[0] == w
    && forall k :: 0 <= k < |s| ==> NodesAgree(g, h, s, t, k)
  }

  /// Two settings types that hash the same bytes are isomorphic under first-visit numbering: type by
  /// type the same kind, names, ids, versions, flags, values and defaults, and parts of the same
  /// numbers, shared and recursive ones included.
  lemma EqualBytesMeanIsomorphic(g: Graph, v: TypeRef, h: Graph, w: TypeRef, allowed: (Head, bool) -> bool)
    requires HeadsDecide(allowed)
    requires Hashed(g, v, allowed) && Hashed(h, w, allowed) && Written(g, v, allowed) == Written(h, w, allowed)
    ensures Isomorphic(g, v, h, w, allowed)
  {
    WalkKeeps(g, v, 0, [], allowed);
    WalkKeeps(h, w, 0, [], allowed);
    var a, b := Walk(g, v, 0, [], allowed).value.0, Walk(h, w, 0, [], allowed).value.0;
    assert TreeBytes(a, allowed) + [] == TreeBytes(a, allowed) && TreeBytes(b, allowed) + [] == TreeBytes(b, allowed);
    TreesDecode(a, b, [], [], allowed);
    EqualWalksAgree(g, v, h, w, 0, [], [], allowed);
  }

  // -- Isomorphic types write equal bytes ----------------------------------------------------

  function RenamedRow(r: Row<TypeRef>, f: TypeRef -> TypeRef): Row<TypeRef> {
    Row(r.text, if r.child.Some? then Some(f(r.child.value)) else None)
  }

  function RenamedRows(rows: seq<Row<TypeRef>>, f: TypeRef -> TypeRef): (renamed: seq<Row<TypeRef>>)
    ensures |renamed| == |rows| && forall i :: 0 <= i < |rows| ==> renamed[i] == RenamedRow(rows[i], f)
  {
    seq(|rows|, i requires 0 <= i < |rows| => RenamedRow(rows[i], f))
  }

  function RenamedSeen(seen: seq<TypeRef>, f: TypeRef -> TypeRef): (renamed: seq<TypeRef>)
    ensures |renamed| == |seen| && forall i :: 0 <= i < |seen| ==> renamed[i] == f(seen[i])
  {
    seq(|seen|, i requires 0 <= i < |seen| => f(seen[i]))
  }

  /// The second graph holds the first one's types under other numbers, possibly among other types.
  ghost predicate Renames(g: Graph, h: Graph, f: TypeRef -> TypeRef) {
    && (forall v {:trigger RenamesAt(g, h, f, v)} :: 0 <= v < |g| ==> RenamesAt(g, h, f, v))
    && forall v, w :: 0 <= v < |g| && 0 <= w < |g| && f(v) == f(w) ==> v == w
  }

  predicate RenamesAt(g: Graph, h: Graph, f: TypeRef -> TypeRef, v: TypeRef)
    requires v < |g|
  {
    f(v) < |h| && h[f(v)] == Node(g[v].head, RenamedRows(g[v].rows, f), RenamedRows(g[v].tail, f))
  }

  lemma {:induction false} RenamedPosition(g: Graph, seen: seq<TypeRef>, f: TypeRef -> TypeRef, v: TypeRef)
    requires SeenOk(g, seen) && v < |g|
    requires forall a, b :: 0 <= a < |g| && 0 <= b < |g| && f(a) == f(b) ==> a == b
    ensures v in seen <==> f(v) in RenamedSeen(seen, f)
    ensures v in seen ==> Position(RenamedSeen(seen, f), f(v)) == Position(seen, v)
  {
    var renamed := RenamedSeen(seen, f);
    forall j | 0 <= j < |seen| ensures renamed[j] == f(v) <==> seen[j] == v {
      assert seen[j] in seen;
    }
    if v in seen {
      var i := Position(seen, v);
      assert renamed[i] == f(v);
      assert seen[Position(renamed, f(v))] == seen[i];
    }
  }

  lemma {:induction false} RenamedWalk(g: Graph, h: Graph, f: TypeRef -> TypeRef, v: TypeRef, depth: nat,
                                       seen: seq<TypeRef>, allowed: (Head, bool) -> bool)
    requires GraphOk(g, allowed) && GraphOk(h, allowed) && Renames(g, h, f)
    requires v < |g| && RenamesAt(g, h, f, v) && depth <= MAX_DEPTH + 1 && SeenOk(g, seen)
    ensures var a, b := Walk(g, v, depth, seen, allowed), Walk(h, f(v), depth, RenamedSeen(seen, f), allowed);
            a.Some? == b.Some? && (a.Some? ==> b.value == (a.value.0, RenamedSeen(a.value.1, f)))
    decreases MAX_DEPTH + 1 - depth, 1, 0
  {
    assert RenamesAt(g, h, f, v);
    RenamedPosition(g, seen, f, v);
    if depth <= MAX_DEPTH && v !in seen {
      SeenOneMore(g, seen, v);
      assert RenamedSeen(seen + [v], f) == RenamedSeen(seen, f) + [f(v)];
      RenamedWalkRows(g, h, f, g[v].rows, depth, seen + [v], allowed);
      var rows := WalkRows(g, g[v].rows, depth, seen + [v], allowed);
      if rows.Some? {
        WalkRowsKeep(g, g[v].rows, depth, seen + [v], allowed);
        RenamedWalkRows(g, h, f, g[v].tail, depth, rows.value.1, allowed);
      }
    }
  }

  lemma {:induction false} RenamedWalkRows(g: Graph, h: Graph, f: TypeRef -> TypeRef, rows: seq<Row<TypeRef>>,
                                           depth: nat,
                                           seen: seq<TypeRef>, allowed: (Head, bool) -> bool)
    requires GraphOk(g, allowed) && GraphOk(h, allowed) && Renames(g, h, f)
    requires PartsOk(g, rows) && depth <= MAX_DEPTH && SeenOk(g, seen)
    ensures PartsOk(h, RenamedRows(rows, f))
    ensures var a, b := WalkRows(g, rows, depth, seen, allowed),
                        WalkRows(h, RenamedRows(rows, f), depth, RenamedSeen(seen, f), allowed);
            a.Some? == b.Some? && (a.Some? ==> b.value == (a.value.0, RenamedSeen(a.value.1, f)))
    decreases MAX_DEPTH + 1 - depth, 0, |rows|
  {
    forall i | 0 <= i < |rows| && rows[i].child.Some? ensures f(rows[i].child.value) < |h| {
      assert RenamesAt(g, h, f, rows[i].child.value);
    }
    if rows != [] {
      assert RenamedRows(rows, f)[1..] == RenamedRows(rows[1..], f);
      RenamedWalkRow(g, h, f, rows[0], depth, seen, allowed);
      WalkRowKeeps(g, rows[0], depth, seen, allowed);
      var first := WalkRow(g, rows[0], depth, seen, allowed);
      if first.Some? { RenamedWalkRows(g, h, f, rows[1..], depth, first.value.1, allowed); }
    }
  }

  lemma RenamedWalkRow(g: Graph, h: Graph, f: TypeRef -> TypeRef, row: Row<TypeRef>, depth: nat, seen: seq<TypeRef>,
                       allowed: (Head, bool) -> bool)
    requires GraphOk(g, allowed) && GraphOk(h, allowed) && Renames(g, h, f)
    requires (row.child.Some? ==> row.child.value < |g| && RenamesAt(g, h, f, row.child.value))
    requires depth <= MAX_DEPTH && SeenOk(g, seen)
    ensures RenamedRow(row, f).child.Some? ==> RenamedRow(row, f).child.value < |h|
    ensures var a, b := WalkRow(g, row, depth, seen, allowed),
                        WalkRow(h, RenamedRow(row, f), depth, RenamedSeen(seen, f), allowed);
            a.Some? == b.Some? && (a.Some? ==> b.value == (a.value.0, RenamedSeen(a.value.1, f)))
    decreases MAX_DEPTH + 1 - depth, 0, 0
  {
    if row.child.Some? {
      var v := row.child.value;
      assert RenamesAt(g, h, f, v);
      RenamedWalk(g, h, f, v, depth + 1, seen, allowed);
      RowsOfOneWalk(row, f, Walk(g, v, depth + 1, seen, allowed),
                    Walk(h, f(v), depth + 1, RenamedSeen(seen, f), allowed));
    }
  }

  lemma RowsOfOneWalk(row: Row<TypeRef>, f: TypeRef -> TypeRef, a: Option<(Tree, seq<TypeRef>)>,
                      b: Option<(Tree, seq<TypeRef>)>)
    requires a.Some? == b.Some? && (a.Some? ==> b.value == (a.value.0, RenamedSeen(a.value.1, f)))
    ensures var x, y := RowOf(row.text, a), RowOf(RenamedRow(row, f).text, b);
            x.Some? == y.Some? && (x.Some? ==> y.value == (x.value.0, RenamedSeen(x.value.1, f)))
  {
  }

  lemma WalkRowKeeps(g: Graph, row: Row<TypeRef>, depth: nat, seen: seq<TypeRef>, allowed: (Head, bool) -> bool)
    requires GraphOk(g, allowed) && (row.child.Some? ==> row.child.value < |g|) && depth <= MAX_DEPTH && SeenOk(g, seen)
    ensures var a := WalkRow(g, row, depth, seen, allowed); a.Some? ==> SeenOk(g, a.value.1)
  {
    if row.child.Some? { WalkKeeps(g, row.child.value, depth + 1, seen, allowed); }
  }

  /// Only the structure counts: types registered in another order, or among others, hash the same.
  lemma RenamingKeepsBytes(g: Graph, h: Graph, f: TypeRef -> TypeRef, v: TypeRef, allowed: (Head, bool) -> bool)
    requires GraphOk(g, allowed) && GraphOk(h, allowed) && Renames(g, h, f) && v < |g| && RenamesAt(g, h, f, v)
    ensures Walk(g, v, 0, [], allowed).Some? == Walk(h, f(v), 0, [], allowed).Some?
    ensures Walk(g, v, 0, [], allowed).Some? ==> Written(g, v, allowed) == Written(h, f(v), allowed)
  {
    RenamedWalk(g, h, f, v, 0, [], allowed);
    assert RenamedSeen([], f) == [];
  }

  // -- Which types are accepted --------------------------------------------------------------

  /// The types being walked are all different, so the walk of a graph of few types never nests too deep.
  lemma {:induction false} FewTypesWalk(g: Graph, v: TypeRef, depth: nat, seen: seq<TypeRef>, above: set<TypeRef>,
                                        allowed: (Head, bool) -> bool)
    requires GraphOk(g, allowed) && v < |g| <= MAX_DEPTH && SeenOk(g, seen)
    requires (forall u :: u in above ==> u in seen) && (forall u :: u in above ==> u < |g|) && |above| == depth
    ensures depth <= MAX_DEPTH && Walk(g, v, depth, seen, allowed).Some?
    decreases |g| - depth, 1, 0
  {
    WithinGraph(g, above);
    if v !in seen {
      SeenOneMore(g, seen, v);
      if depth == |g| { WithinGraph(g, above + {v}); }
      FewTypesWalkRows(g, g[v].rows, depth, seen + [v], above + {v}, allowed);
      WalkRowsKeep(g, g[v].rows, depth, seen + [v], allowed);
      var after := WalkRows(g, g[v].rows, depth, seen + [v], allowed).value.1;
      forall u | u in above + {v} ensures u in after { assert u in seen + [v]; }
      FewTypesWalkRows(g, g[v].tail, depth, after, above + {v}, allowed);
    }
  }

  lemma {:induction false} FewTypesWalkRows(g: Graph, rows: seq<Row<TypeRef>>, depth: nat, seen: seq<TypeRef>,
                                            above: set<TypeRef>, allowed: (Head, bool) -> bool)
    requires GraphOk(g, allowed) && PartsOk(g, rows) && |g| <= MAX_DEPTH && SeenOk(g, seen)
    requires (forall u :: u in above ==> u in seen) && (forall u :: u in above ==> u < |g|) && |above| == depth + 1
    ensures depth < |g| && WalkRows(g, rows, depth, seen, allowed).Some?
    decreases |g| - depth, 0, |rows|
  {
    WithinGraph(g, above);
    if rows != [] {
      if rows[0].child.Some? {
        FewTypesWalk(g, rows[0].child.value, depth + 1, seen, above, allowed);
        WalkKeeps(g, rows[0].child.value, depth + 1, seen, allowed);
      }
      var after := WalkRow(g, rows[0], depth, seen, allowed).value.1;
      forall u | u in above ensures u in after { }
      FewTypesWalkRows(g, rows[1..], depth, after, above, allowed);
    }
  }

  lemma {:induction false} WithinGraph(g: Graph, types: set<TypeRef>)
    requires forall u :: u in types ==> u < |g|
    ensures |types| <= |g|
    decreases |g|
  {
    if g != [] {
      var n := |g| - 1;
      WithinGraph(g[..n], types - {n});
    } else {
      assert types == {};
    }
  }

  /// Graphs of up to 64 types are accepted, however they are shared and recursive.
  lemma SmallGraphsAreHashed(g: Graph, v: TypeRef, allowed: (Head, bool) -> bool)
    requires GraphOk(g, allowed) && v < |g| <= 64
    ensures Hashed(g, v, allowed)
  {
    FewTypesWalk(g, v, 0, [], {}, allowed);
  }

  /// Each type of the path has the next one as its only part, and the last has none.
  ghost predicate Nested(g: Graph, path: seq<TypeRef>) {
    && path != [] && NoRepeats(path) && (forall i :: 0 <= i < |path| ==> path[i] < |g| && g[path[i]].rows == [])
    && (forall i :: 0 <= i < |path| - 1 ==>
          |g[path[i]].tail| == 1 && g[path[i]].tail[0].child == Some(path[i + 1]))
    && g[path[|path| - 1]].tail == []
  }

  lemma {:induction false} NestedWalk(g: Graph, path: seq<TypeRef>, i: nat, allowed: (Head, bool) -> bool)
    requires GraphOk(g, allowed) && Nested(g, path) && i < |path| && i <= MAX_DEPTH + 1
    ensures Walk(g, path[i], i, path[..i], allowed).Some? <==> |path| <= MAX_DEPTH + 1
    decreases |path| - i
  {
    if i <= MAX_DEPTH {
      assert path[i] !in path[..i];
      var seen := path[..i] + [path[i]];
      assert seen == path[..i + 1];
      assert WalkRows(g, g[path[i]].rows, i, seen, allowed) == Some(([], seen));
      if i < |path| - 1 {
        NestedWalk(g, path, i + 1, allowed);
        OnePart(g, g[path[i]].tail, i, seen, allowed);
      }
    }
  }

  lemma OnePart(g: Graph, rows: seq<Row<TypeRef>>, depth: nat, seen: seq<TypeRef>, allowed: (Head, bool) -> bool)
    requires GraphOk(g, allowed) && PartsOk(g, rows) && depth <= MAX_DEPTH && |rows| == 1 && rows[0].child.Some?
    ensures WalkRows(g, rows, depth, seen, allowed).Some?
            <==> Walk(g, rows[0].child.value, depth + 1, seen, allowed).Some?
  {
    hide Walk;
    assert rows[1..] == [];
  }

  /// Types nested in one another are accepted up to 65 of them: the depth limit is exact.
  lemma NestedHashedIff(g: Graph, path: seq<TypeRef>, allowed: (Head, bool) -> bool)
    requires GraphOk(g, allowed) && Nested(g, path)
    ensures Hashed(g, path[0], allowed) <==> |path| <= 65
  {
    NestedWalk(g, path, 0, allowed);
    assert path[..0] == [];
  }

  // -- The walk object -----------------------------------------------------------------------

  ghost function Prepended(trees: seq<Row<Tree>>, rest: Option<(seq<Row<Tree>>, seq<TypeRef>)>)
      : Option<(seq<Row<Tree>>, seq<TypeRef>)>
  {
    if rest.None? then None else Some((trees + rest.value.0, rest.value.1))
  }

  /// One more row of the loop over a type's parts.
  lemma RowsForward(g: Graph, rows: seq<Row<TypeRef>>, i: nat, depth: nat, seen: seq<TypeRef>, trees: seq<Row<Tree>>,
                    allowed: (Head, bool) -> bool)
    requires GraphOk(g, allowed) && PartsOk(g, rows) && i < |rows| && PartsOk(g, rows[i..]) && depth <= MAX_DEPTH
    ensures PartsOk(g, rows[i + 1..])
    ensures var first := WalkRow(g, rows[i], depth, seen, allowed);
            Prepended(trees, WalkRows(g, rows[i..], depth, seen, allowed))
            == if first.None? then None
               else Prepended(trees + [first.value.0], WalkRows(g, rows[i + 1..], depth, first.value.1, allowed))
  {
    assert rows[i..][1..] == rows[i + 1..];
    var first := WalkRow(g, rows[i], depth, seen, allowed);
    if first.Some? {
      var rest := WalkRows(g, rows[i + 1..], depth, first.value.1, allowed);
      if rest.Some? { assert trees + ([first.value.0] + rest.value.0) == trees + [first.value.0] + rest.value.0; }
    }
  }

  ghost predicate RowTreeOk(r: Row<Tree>, allowed: (Head, bool) -> bool) {
    LabelFits(r.text) && (r.child.Some? ==> TreeOk(r.child.value, allowed))
  }

  lemma {:induction false} RowsBytesAppend(rows: seq<Row<Tree>>, r: Row<Tree>, allowed: (Head, bool) -> bool)
    requires RowsOk(rows, allowed) && RowTreeOk(r, allowed)
    ensures RowsOk(rows + [r], allowed)
    ensures RowsBytes(rows + [r], allowed) == RowsBytes(rows, allowed) + (LabelBytes(r.text) + ChildBytes(r, allowed))
  {
    var last := LabelBytes(r.text) + ChildBytes(r, allowed);
    if rows == [] {
      assert [r][1..] == [] && rows + [r] == [r];
      assert ChildBytes(r, allowed) + [] == ChildBytes(r, allowed);
      assert [] + last == last;
    } else {
      assert (rows + [r])[1..] == rows[1..] + [r] && (rows + [r])[0] == rows[0];
      RowsBytesAppend(rows[1..], r, allowed);
      RowSplits(rows, last, allowed);
    }
  }

  class SettingsTypeWalk {
    /// The bytes the hasher was given.
    var m_hashed: seq<Byte>
    var m_seen: map<TypeRef, nat>
    ghost var order: seq<TypeRef>

    ghost predicate Valid()
      reads this
    {
      |m_seen| == |order| && (forall v :: v in m_seen <==> v in order)
      && forall i :: 0 <= i < |order| ==> order[i] in m_seen && m_seen[order[i]] == i
    }

    constructor ()
      ensures Valid() && m_hashed == [] && order == []
    {
      m_hashed, m_seen, order := [], map[], [];
    }

    method Emit(bytes: seq<Byte>)
      modifies this`m_hashed
      ensures m_hashed == old(m_hashed) + bytes
    {
      m_hashed := m_hashed + bytes;
    }

    /// Walks one type; `ok` is false when types nest too deep.
    method Type(g: Graph, v: TypeRef, depth: nat, ghost allowed: (Head, bool) -> bool) returns (ok: bool)
      requires Valid() && GraphOk(g, allowed) && v < |g| && depth <= MAX_DEPTH + 1 && SeenOk(g, order)
      modifies this
      ensures Valid()
      ensures ok <==> Walk(g, v, depth, old(order), allowed).Some?
      ensures ok ==> SeenOk(g, order) && order == Walk(g, v, depth, old(order), allowed).value.1
      ensures ok ==> TreeOk(Walk(g, v, depth, old(order), allowed).value.0, allowed)
                     && m_hashed == old(m_hashed) + TreeBytes(Walk(g, v, depth, old(order), allowed).value.0, allowed)
      decreases MAX_DEPTH + 1 - depth, 3
    {
      WalkKeeps(g, v, depth, order, allowed);
      hide GraphOk, WalkRows;
      if depth > MAX_DEPTH {
        return false;
      }
      if v in m_seen {
        Emit([TAG_SEEN]);
        Emit(Bytes32(m_seen[v]));
        assert order[Position(order, v)] == v;
        return true;
      }
      ok := FirstVisit(g, v, depth, allowed);
    }

    method FirstVisit(g: Graph, v: TypeRef, depth: nat, ghost allowed: (Head, bool) -> bool) returns (ok: bool)
      requires Valid() && GraphOk(g, allowed) && v < |g| && depth <= MAX_DEPTH && SeenOk(g, order) && v !in order
      modifies this
      ensures Valid()
      ensures ok <==> Walk(g, v, depth, old(order), allowed).Some?
      ensures ok ==> SeenOk(g, order) && order == Walk(g, v, depth, old(order), allowed).value.1
      ensures ok ==> TreeOk(Walk(g, v, depth, old(order), allowed).value.0, allowed)
                     && m_hashed == old(m_hashed) + TreeBytes(Walk(g, v, depth, old(order), allowed).value.0, allowed)
      decreases MAX_DEPTH + 1 - depth, 2
    {
      ghost var start := m_hashed;
      ghost var walked := Walk(g, v, depth, order, allowed);
      WalkOfRows(g, v, depth, order, allowed);
      SeenOneMore(g, order, v);
      m_seen, order := m_seen[v := |m_seen|], order + [v];
      EmitHead(g[v]);
      ok := Parts(g, g[v].rows, depth, allowed);
      if ok {
        ok := Parts(g, g[v].tail, depth, allowed);
        if ok { VisitBytes(start, walked.value.0.node, allowed); }
      }
    }

    method EmitHead(node: Node<TypeRef>)
      modifies this`m_hashed
      ensures m_hashed == old(m_hashed) + HeadAndCount(node.head, |node.rows|)
    {
      Emit([TAG_TYPE]);
      Emit(HeadBytes(node.head));
      if Counted(node.head.kind) {
        Emit(Bytes64(|node.rows|));
      }
    }

    /// The loops over fields, enum values, alternatives, and the key and element.
    method Parts(g: Graph, rows: seq<Row<TypeRef>>, depth: nat, ghost allowed: (Head, bool) -> bool) returns (ok: bool)
      requires Valid() && GraphOk(g, allowed) && PartsOk(g, rows) && depth <= MAX_DEPTH && SeenOk(g, order)
      modifies this
      ensures Valid()
      ensures ok <==> WalkRows(g, rows, depth, old(order), allowed).Some?
      ensures ok ==> SeenOk(g, order) && order == WalkRows(g, rows, depth, old(order), allowed).value.1
      ensures ok ==> RowsOk(WalkRows(g, rows, depth, old(order), allowed).value.0, allowed)
                     && m_hashed == old(m_hashed)
                       + RowsBytes(WalkRows(g, rows, depth, old(order), allowed).value.0, allowed)
      decreases MAX_DEPTH + 1 - depth, 1
    {
      ghost var trees: seq<Row<Tree>>, start, was := [], m_hashed, order;
      var i := 0;
      assert rows[0..] == rows;
      NothingYet(WalkRows(g, rows, depth, order, allowed));
      while i < |rows|
        invariant i <= |rows| && Valid() && SeenOk(g, order) && PartsOk(g, rows[i..])
        invariant WalkRows(g, rows, depth, was, allowed)
                  == Prepended(trees, WalkRows(g, rows[i..], depth, order, allowed))
        invariant RowsOk(trees, allowed) && m_hashed == start + RowsBytes(trees, allowed)
        decreases |rows| - i
      {
        RowsForward(g, rows, i, depth, order, trees, allowed);
        ghost var r := WalkRow(g, rows[i], depth, order, allowed);
        ok := Part1(g, rows[i], depth, allowed);
        if !ok {
          return;
        }
        RowsBytesAppend(trees, r.value.0, allowed);
        Appended(start, RowsBytes(trees, allowed), LabelBytes(rows[i].text), ChildBytes(r.value.0, allowed));
        trees := trees + [r.value.0];
        i := i + 1;
      }
      ok := true;
      assert trees + [] == trees;
    }

    /// One field, enum value, alternative, key or element.
    method Part1(g: Graph, row: Row<TypeRef>, depth: nat, ghost allowed: (Head, bool) -> bool) returns (ok: bool)
      requires Valid() && GraphOk(g, allowed) && LabelFits(row.text) && (row.child.Some? ==> row.child.value < |g|)
      requires depth <= MAX_DEPTH && SeenOk(g, order)
      modifies this
      ensures Valid()
      ensures ok <==> WalkRow(g, row, depth, old(order), allowed).Some?
      ensures ok ==> SeenOk(g, order) && order == WalkRow(g, row, depth, old(order), allowed).value.1
      ensures ok ==> var r := WalkRow(g, row, depth, old(order), allowed).value.0;
                     RowTreeOk(r, allowed) && r.text == row.text
                     && m_hashed == old(m_hashed) + LabelBytes(row.text) + ChildBytes(r, allowed)
      decreases MAX_DEPTH + 1 - depth, 0
    {
      Emit(LabelBytes(row.text));
      ok := true;
      if row.child.Some? {
        ok := Type(g, row.child.value, depth + 1, allowed);
      } else {
        assert m_hashed + [] == m_hashed;
      }
    }
  }

  function HeadAndCount(head: Head, rows: nat): seq<Byte> {
    [TAG_TYPE] + HeadBytes(head) + if Counted(head.kind) then Bytes64(rows) else []
  }

  lemma WalkOfRows(g: Graph, v: TypeRef, depth: nat, seen: seq<TypeRef>, allowed: (Head, bool) -> bool)
    requires GraphOk(g, allowed) && v < |g| && depth <= MAX_DEPTH && SeenOk(g, seen) && v !in seen
    ensures var walked, rows := Walk(g, v, depth, seen, allowed), WalkRows(g, g[v].rows, depth, seen + [v], allowed);
            && (rows.None? ==> walked.None?)
            && (rows.Some? ==> |rows.value.0| == |g[v].rows|)
            && (rows.Some? ==>
                  var tail := WalkRows(g, g[v].tail, depth, rows.value.1, allowed);
                  walked.Some? == tail.Some?
                  && (tail.Some? ==> TreeOk(walked.value.0, allowed)
                                     && walked.value == (Visit(Node(g[v].head, rows.value.0, tail.value.0)),
                                                         tail.value.1)))
  {
    WalkKeeps(g, v, depth, seen, allowed);
    SeenOneMore(g, seen, v);
    WalkRowsKeep(g, g[v].rows, depth, seen + [v], allowed);
  }

  lemma VisitBytes(start: seq<Byte>, n: Node<Tree>, allowed: (Head, bool) -> bool)
    requires TreeOk(Visit(n), allowed)
    ensures start + HeadAndCount(n.head, |n.rows|) + RowsBytes(n.rows, allowed) + RowsBytes(n.tail, allowed)
            == start + TreeBytes(Visit(n), allowed)
  {
    var h, r, t := HeadBytes(n.head), RowsBytes(n.rows, allowed), RowsBytes(n.tail, allowed);
    var c := if Counted(n.head.kind) then Bytes64(|n.rows|) else [];
    Assoc(start + ([TAG_TYPE] + h + c), r, t);
    Assoc(start, [TAG_TYPE] + h + c, r + t);
    Assoc([TAG_TYPE] + h, c, r + t);
    Assoc([TAG_TYPE], h, c + (r + t));
  }

  lemma NothingYet(w: Option<(seq<Row<Tree>>, seq<TypeRef>)>)
    ensures Prepended([], w) == w
  {
    if w.Some? { assert [] + w.value.0 == w.value.0; }
  }

  lemma Appended(a: seq<Byte>, b: seq<Byte>, c: seq<Byte>, d: seq<Byte>)
    ensures a + b + c + d == a + (b + (c + d))
  {
    Assoc(a + b, c, d);
    Assoc(a, b, c + d);
  }
}
