/// The check that a text document is UTF-8 without NUL bytes, read piece by piece
/// (completeUtf8Prefix and checkTextDocument in apps/tools/helios-cook/content_check.cpp, with the
/// decoder of engine/core/src/utf.cpp).
module TextCheck {
  import opened ByteStrings
  import opened Options

  // -- The grammar of section 4 of RFC 3629 --------------------------------------------------

  predicate IsTail(b: Byte) {
    0x80 <= b <= 0xBF
  }

  /// UTF8-char.
  predicate IsChar(c: Bytes) {
    || (|c| == 1 && c[0] <= 0x7F)
    || (|c| == 2 && 0xC2 <= c[0] <= 0xDF && IsTail(c[1]))
    || (|c| == 3 && IsTail(c[2])
        && ((c[0] == 0xE0 && 0xA0 <= c[1] <= 0xBF) || (0xE1 <= c[0] <= 0xEC && IsTail(c[1]))
            || (c[0] == 0xED && 0x80 <= c[1] <= 0x9F) || (0xEE <= c[0] <= 0xEF && IsTail(c[1]))))
    || (|c| == 4 && IsTail(c[2]) && IsTail(c[3])
        && ((c[0] == 0xF0 && 0x90 <= c[1] <= 0xBF) || (0xF1 <= c[0] <= 0xF3 && IsTail(c[1]))
            || (c[0] == 0xF4 && 0x80 <= c[1] <= 0x8F)))
  }

  /// UTF8-octets: any number of characters.
  predicate IsUtf8(s: Bytes)
    decreases |s|
  {
    s == [] || exists n :: 1 <= n <= 4 && n <= |s| && IsChar(s[..n]) && IsUtf8(s[n..])
  }

  // -- The decoder ---------------------------------------------------------------------------

  /// The length that a lead byte announces, 0 for a byte that starts no character.
  function Need(b: Byte): (n: nat)
    ensures n <= 4
  {
    if b < 0x80 then 1 else if 0xC2 <= b <= 0xDF then 2 else if 0xE0 <= b <= 0xEF then 3
    else if 0xF0 <= b <= 0xF4 then 4
    else 0
  }

  /// The bounds of the byte after the lead: no overlong forms, no surrogates, nothing above U+10FFFF.
  function Lo(b: Byte): Byte {
    if b == 0xE0 then 0xA0 else if b == 0xF0 then 0x90 else 0x80
  }

  function Hi(b: Byte): Byte {
    if b == 0xED then 0x9F else if b == 0xF4 then 0x8F else 0xBF
  }

  /// The length of the character at a position, 0 when it is malformed or cut off.
  function CharAt(s: Bytes, pos: nat): (n: nat)
    requires pos < |s|
    ensures n <= 4 && (n > 0 ==> pos + n <= |s|)
  {
    var n := Need(s[pos]);
    if n == 0 || pos + n > |s| then 0
    else if n >= 2 && !(Lo(s[pos]) <= s[pos + 1] <= Hi(s[pos])) then 0
    else if n >= 3 && !IsTail(s[pos + 2]) then 0
    else if n == 4 && !IsTail(s[pos + 3]) then 0
    else n
  }

  lemma CharAtIsGrammar(s: Bytes, pos: nat, n: nat)
    requires pos < |s| && 1 <= n <= 4 && pos + n <= |s|
    ensures IsChar(s[pos..pos + n]) <==> CharAt(s, pos) == n
  {
    var c := s[pos..pos + n];
    assert forall k :: 0 <= k < n ==> c[k] == s[pos + k];
  }

  /// The bits of a byte without its marker.
  function Above(b: Byte, marker: nat): int {
    b as int - marker
  }

  function CodePoint(s: Bytes, pos: nat): nat
    requires pos < |s| && CharAt(s, pos) > 0
  {
    match CharAt(s, pos)
    case 1 => s[pos]
    case 2 => Above(s[pos], 0xC0) * 64 + Above(s[pos + 1], 0x80)
    case 3 => (Above(s[pos], 0xE0) * 64 + Above(s[pos + 1], 0x80)) * 64 + Above(s[pos + 2], 0x80)
    case _ =>
      ((Above(s[pos], 0xF0) * 64 + Above(s[pos + 1], 0x80)) * 64 + Above(s[pos + 2], 0x80)) * 64
        + Above(s[pos + 3], 0x80)
  }

  const REPLACEMENT: nat := 0xFFFD

  /// Decodes one code point; malformed input gives the replacement character.
  method Decode(s: Bytes, pos: nat) returns (ok: bool, next: nat, cp: nat)
    requires pos < |s|
    ensures ok <==> CharAt(s, pos) > 0
    ensures ok ==> next == pos + CharAt(s, pos) && cp == CodePoint(s, pos)
    ensures !ok ==> pos < next <= |s| && cp == REPLACEMENT
  {
    var b0 := s[pos];
    if b0 < 0x80 {
      return true, pos + 1, b0;
    }
    var need := Need(b0);
    if need == 0 {
      return false, pos + 1, REPLACEMENT;
    }
    cp := Above(b0, if need == 2 then 0xC0 else if need == 3 then 0xE0 else 0xF0);
    var lo, hi := Lo(b0), Hi(b0);
    next := pos + 1;
    var k := 1;
    while k < need
      invariant 1 <= k <= need && next == pos + k <= |s|
      invariant lo == (if k == 1 then Lo(b0) else 0x80) && hi == (if k == 1 then Hi(b0) else 0xBF)
      invariant k >= 2 ==> Lo(b0) <= s[pos + 1] <= Hi(b0)
      invariant k >= 3 ==> IsTail(s[pos + 2])
      invariant k >= 4 ==> IsTail(s[pos + 3])
      invariant cp == Accumulated(s, pos, need, k)
    {
      if next >= |s| {
        return false, next, REPLACEMENT;
      }
      var b := s[next];
      if b < lo || b > hi {
        return false, next, REPLACEMENT;
      }
      lo, hi := 0x80, 0xBF;
      cp := cp * 64 + Above(b, 0x80);
      next := next + 1;
      k := k + 1;
    }
    assert Accumulated(s, pos, need, need) == CodePoint(s, pos) by {
      assert Accumulated(s, pos, need, 2) == Accumulated(s, pos, need, 1) * 64 + Above(s[pos + 1], 0x80);
    }
    ok := true;
  }

  ghost function Accumulated(s: Bytes, pos: nat, need: nat, k: nat): int
    requires 2 <= need <= 4 && 1 <= k <= need && pos + k <= |s|
  {
    var lead := Above(s[pos], if need == 2 then 0xC0 else if need == 3 then 0xE0 else 0xF0);
    if k == 1 then lead else Accumulated(s, pos, need, k - 1) * 64 + Above(s[pos + k - 1], 0x80)
  }

  /// A decoded replacement character means malformed input unless the bytes are its own encoding.
  lemma ReplacementIsItsEncoding(s: Bytes, pos: nat)
    requires pos < |s| && CharAt(s, pos) > 0
    ensures CodePoint(s, pos) == REPLACEMENT <==> pos + 3 <= |s| && s[pos..pos + 3] == [0xEF, 0xBF, 0xBD]
  {
    if CharAt(s, pos) == 3 {
      assert s[pos..pos + 3] == [s[pos], s[pos + 1], s[pos + 2]];
    } else if pos + 3 <= |s| {
      assert s[pos..pos + 3][0] == s[pos];
    }
  }

  // -- Runs of characters --------------------------------------------------------------------

  /// The bytes from one position to another are whole characters.
  predicate Whole(s: Bytes, from: nat, end: nat)
    requires from <= end <= |s|
    decreases end - from
  {
    from == end || (CharAt(s, from) > 0 && from + CharAt(s, from) <= end && Whole(s, from + CharAt(s, from), end))
  }

  lemma FirstChar(s: Bytes, from: nat)
    requires from < |s|
    ensures forall n :: 1 <= n <= 4 && n <= |s| - from ==> (IsChar(s[from..][..n]) <==> CharAt(s, from) == n)
  {
    forall n | 1 <= n <= 4 && n <= |s| - from ensures IsChar(s[from..][..n]) <==> CharAt(s, from) == n {
      assert s[from..][..n] == s[from..from + n];
      CharAtIsGrammar(s, from, n);
    }
  }

  lemma {:induction false} WholeIsUtf8(s: Bytes, from: nat)
    requires from <= |s|
    ensures Whole(s, from, |s|) <==> IsUtf8(s[from..])
    decreases |s| - from
  {
    if from < |s| {
      FirstChar(s, from);
      hide CharAt, IsChar, IsUtf8;
      var n := CharAt(s, from);
      Utf8Step(s[from..], n);
      if n > 0 {
        WholeIsUtf8(s, from + n);
        assert s[from..][n..] == s[from + n..];
      }
    }
  }

  lemma Utf8Step(t: Bytes, first: nat)
    requires t != [] && first <= 4 && first <= |t|
    requires forall n :: 1 <= n <= 4 && n <= |t| ==> (IsChar(t[..n]) <==> first == n)
    ensures IsUtf8(t) <==> first > 0 && IsUtf8(t[first..])
  {
    hide IsChar;
  }

  lemma {:induction false} WholeJoins(s: Bytes, a: nat, b: nat, c: nat)
    requires a <= b <= c <= |s| && Whole(s, a, b)
    ensures Whole(s, a, c) <==> Whole(s, b, c)
    decreases b - a
  {
    if a < b { WholeJoins(s, a + CharAt(s, a), b, c); }
  }

  /// A character that is malformed at the end of whole characters makes the text malformed.
  lemma MalformedAt(s: Bytes, at: nat)
    requires at < |s| && Whole(s, 0, at) && CharAt(s, at) == 0
    ensures !Whole(s, 0, |s|)
  {
    WholeJoins(s, 0, at, |s|);
  }

  lemma {:induction false} WholeInside(file: Bytes, at: nat, part: Bytes, from: nat, end: nat)
    requires at + |part| <= |file| && file[at..at + |part|] == part && from <= end <= |part| && Whole(part, from, end)
    ensures Whole(file, at + from, at + end)
    decreases end - from
  {
    assert forall k :: 0 <= k < |part| ==> file[at + k] == part[k];
    if from < end {
      assert CharAt(file, at + from) == CharAt(part, from);
      WholeInside(file, at, part, from + CharAt(part, from), end);
    }
  }

  method IsValidUtf8(text: Bytes) returns (valid: bool)
    ensures valid <==> Whole(text, 0, |text|)
  {
    var pos := 0;
    while pos < |text|
      invariant pos <= |text| && Whole(text, 0, pos)
    {
      var ok, next, cp := Decode(text, pos);
      if !ok {
        MalformedAt(text, pos);
        return false;
      }
      WholeJoins(text, 0, pos, next);
      pos := next;
    }
    return true;
  }

  /// The offset of the first malformed character.
  method FirstInvalidUtf8(text: Bytes) returns (at: nat)
    requires !Whole(text, 0, |text|)
    ensures at < |text| && Whole(text, 0, at) && CharAt(text, at) == 0
  {
    at := 0;
    while at < |text|
      invariant at <= |text| && Whole(text, 0, at)
      decreases |text| - at
    {
      var ok, next, cp := Decode(text, at);
      if cp == REPLACEMENT && !(at + 3 <= |text| && text[at..at + 3] == [0xEF, 0xBF, 0xBD]) {
        if ok { ReplacementIsItsEncoding(text, at); }
        return;
      }
      if ok {
        WholeJoins(text, 0, at, next);
      } else {
        EncodingIsWellFormed(text, at);
      }
      at := next;
    }
  }

  lemma EncodingIsWellFormed(s: Bytes, at: nat)
    requires at + 3 <= |s| && s[at..at + 3] == [0xEF, 0xBF, 0xBD]
    ensures CharAt(s, at) == 3
  {
    assert s[at..at + 3][0] == s[at] && s[at..at + 3][1] == s[at + 1] && s[at..at + 3][2] == s[at + 2];
  }

  // -- Reading in pieces ---------------------------------------------------------------------

  /// What the loop over the last bytes takes a byte's sequence to need.
  function Announced(b: Byte): nat {
    if 0xC0 <= b <= 0xDF then 2 else if 0xE0 <= b <= 0xEF then 3 else if 0xF0 <= b <= 0xF7 then 4 else 1
  }

  function FromEnd(chunk: Bytes, k: nat): Byte
    requires 1 <= k <= |chunk|
  {
    chunk[|chunk| - k]
  }

  /// A sequence that the end of the chunk cuts is left for the next one. Where the prefix ends, no
  /// well-formed character was cut: a character malformed in the prefix is malformed whatever follows.
  method CompleteUtf8Prefix(chunk: Bytes) returns (end: nat)
    ensures end <= |chunk| <= end + 3
    ensures forall p, more: Bytes :: 0 <= p < end && CharAt(chunk[..end], p) == 0 ==> CharAt(chunk + more, p) == 0
  {
    var back := 1;
    while back <= (if |chunk| < 3 then |chunk| else 3)
      invariant 1 <= back <= 4 && back <= |chunk| + 1
      invariant forall k :: 1 <= k < back ==> IsTail(FromEnd(chunk, k))
    {
      var c := chunk[|chunk| - back];
      if !IsTail(c) {
        if Announced(c) > back {
          end := |chunk| - back;
          forall p, more: Bytes | 0 <= p < end && CharAt(chunk[..end], p) == 0 ensures CharAt(chunk + more, p) == 0 {
            NotCutByLead(chunk, end, more, p);
          }
          return;
        }
        end := |chunk|;
        forall p, more: Bytes | 0 <= p < end && CharAt(chunk[..end], p) == 0 ensures CharAt(chunk + more, p) == 0 {
          NotCutAtEnd(chunk, back, more, p);
        }
        return;
      }
      back := back + 1;
    }
    end := |chunk|;
    forall p, more: Bytes | 0 <= p < end && CharAt(chunk[..end], p) == 0 ensures CharAt(chunk + more, p) == 0 {
      NotCutAfterTails(chunk, more, p);
    }
  }

  lemma NotCutByLead(chunk: Bytes, end: nat, more: Bytes, p: nat)
    requires p < end < |chunk| && !IsTail(chunk[end]) && CharAt(chunk[..end], p) == 0
    ensures CharAt(chunk + more, p) == 0
  {
  }

  lemma NotCutAtEnd(chunk: Bytes, back: nat, more: Bytes, p: nat)
    requires 1 <= back <= 3 && back <= |chunk| && Announced(FromEnd(chunk, back)) <= back
             && !IsTail(FromEnd(chunk, back))
    requires forall k :: 1 <= k < back ==> IsTail(FromEnd(chunk, k))
    requires p < |chunk| && CharAt(chunk[..|chunk|], p) == 0
    ensures CharAt(chunk + more, p) == 0
  {
    assert chunk[..|chunk|] == chunk;
    var whole, left := chunk + more, |chunk| - p;
    assert forall k :: 0 <= k < |chunk| ==> whole[k] == chunk[k];
    if Need(chunk[p]) > left {
      // The character would reach past the chunk: a tail byte cannot lead it, and the byte at `back`
      // is no tail byte.
      assert chunk[p] == FromEnd(chunk, left);
      assert whole[|chunk| - back] == FromEnd(chunk, back);
    }
  }

  lemma NotCutAfterTails(chunk: Bytes, more: Bytes, p: nat)
    requires forall k :: 1 <= k <= 3 && k <= |chunk| ==> IsTail(FromEnd(chunk, k))
    requires p < |chunk| && CharAt(chunk[..|chunk|], p) == 0
    ensures CharAt(chunk + more, p) == 0
  {
    assert chunk[..|chunk|] == chunk;
    assert forall k :: 0 <= k < |chunk| ==> (chunk + more)[k] == chunk[k];
    assert |chunk| - p <= 3 ==> chunk[p] == FromEnd(chunk, |chunk| - p);
  }

  // -- The check -----------------------------------------------------------------------------

  const CHUNK: nat := 65_536

  datatype Verdict = Text | NulByte(offset: nat) | Invalid(offset: nat)

  predicate NoNul(s: Bytes) {
    forall k :: 0 <= k < |s| ==> s[k] != 0
  }

  /// A way to read a file: pieces of at most a chunk, none of them empty.
  predicate Reads(pieces: seq<Bytes>) {
    forall i :: 0 <= i < |pieces| ==> 0 < |pieces[i]| <= CHUNK
  }

  method FindNul(s: Bytes) returns (at: Option<nat>)
    ensures at.None? <==> NoNul(s)
    ensures at.Some? ==> at.value < |s| && s[at.value] == 0 && NoNul(s[..at.value])
  {
    for i := 0 to |s|
      invariant NoNul(s[..i])
    {
      if s[i] == 0 {
        return Some(i);
      }
    }
    assert s[..|s|] == s;
    return None;
  }

  /// Checks the carried bytes and the bytes just read; `end` is where the next chunk starts.
  method CheckChunk(chunk: Bytes, offset: nat, atEnd: bool, ghost file: Bytes, ghost carry: nat)
      returns (verdict: Verdict, end: nat)
    requires offset + |chunk| <= |file| && file[offset..offset + |chunk|] == chunk && carry <= |chunk|
    requires Whole(file, 0, offset) && NoNul(file[..offset + carry]) && (atEnd ==> offset + |chunk| == |file|)
    ensures verdict.Text? ==> end <= |chunk| <= end + 3 && (atEnd ==> end == |chunk|)
                              && Whole(file, 0, offset + end) && NoNul(file[..offset + |chunk|])
    ensures verdict.NulByte? ==> IsNul(file, verdict.offset) && !NoNul(file)
    ensures verdict.Invalid? ==> IsMalformed(file, verdict.offset) && !Whole(file, 0, |file|)
  {
    hide Whole, NoNul, CharAt, IsNul, IsMalformed;
    end := 0;
    var nul := FindNul(chunk);
    if nul.Some? {
      NulInFile(file, offset, carry, chunk, nul.value);
      return NulByte(offset + nul.value), end;
    }
    end := |chunk|;
    // At the end of the file a cut sequence is not carried: it is malformed.
    if !atEnd {
      end := CompleteUtf8Prefix(chunk);
    }
    var whole := chunk[..end];
    var valid := IsValidUtf8(whole);
    if !valid {
      var at := FirstInvalidUtf8(whole);
      InvalidInFile(file, offset, chunk, end, at, atEnd);
      return Invalid(offset + at), end;
    }
    SliceShorter(file, offset, chunk, end);
    WholeInside(file, offset, whole, 0, end);
    WholeJoins(file, 0, offset, offset + end);
    NoNulLonger(file, offset, carry, chunk);
    verdict := Text;
  }

  lemma SliceShorter(file: Bytes, offset: nat, chunk: Bytes, end: nat)
    requires offset + |chunk| <= |file| && file[offset..offset + |chunk|] == chunk && end <= |chunk|
    ensures file[offset..offset + end] == chunk[..end]
  {
    assert forall k :: 0 <= k < |chunk| ==> file[offset + k] == chunk[k];
  }

  predicate IsNul(file: Bytes, at: nat) {
    at < |file| && file[at] == 0 && NoNul(file[..at])
  }

  predicate IsMalformed(file: Bytes, at: nat) {
    at < |file| && Whole(file, 0, at) && CharAt(file, at) == 0
  }

  /// One read and the check of what it brought; `n` bytes came behind the carried ones.
  method NextChunk(buffer: array<Byte>, piece: Bytes, carry: nat, offset: nat, ghost file: Bytes)
      returns (verdict: Verdict, newCarry: nat, newOffset: nat)
    requires buffer.Length == CHUNK + 3 && carry <= 3 && |piece| <= CHUNK
    requires offset + carry + |piece| <= |file| && buffer[..carry] == file[offset..offset + carry]
    requires file[offset + carry..offset + carry + |piece|] == piece
    requires Whole(file, 0, offset) && NoNul(file[..offset + carry]) && (piece == [] ==> offset + carry == |file|)
    modifies buffer
    ensures verdict.Text? ==>
              && newCarry <= 3 && newOffset + newCarry == offset + carry + |piece|
              && buffer[..newCarry] == file[newOffset..newOffset + newCarry]
              && Whole(file, 0, newOffset) && NoNul(file[..newOffset + newCarry])
              && (piece == [] ==> newOffset == |file|)
    ensures verdict.NulByte? ==> IsNul(file, verdict.offset) && !NoNul(file)
    ensures verdict.Invalid? ==> IsMalformed(file, verdict.offset) && !Whole(file, 0, |file|)
  {
    hide Whole, NoNul, CharAt, IsNul, IsMalformed;
    ReadInto(buffer, carry, piece);
    var chunk := buffer[..carry + |piece|];
    ChunkInFile(file, offset, carry, chunk, piece);
    var end: nat;
    verdict, end := CheckChunk(chunk, offset, piece == [], file, carry);
    newCarry, newOffset := 0, 0;
    if verdict.Text? {
      Keep(buffer, end, |chunk| - end);
      KeptInFile(file, offset, chunk, end);
      newCarry, newOffset := |chunk| - end, offset + end;
    }
  }

  /// Accepts exactly the files that are UTF-8 without a NUL byte, however reading splits them, and
  /// otherwise names the first NUL byte or the first malformed character of the file.
  method CheckTextDocument(pieces: seq<Bytes>) returns (verdict: Verdict)
    requires Reads(pieces)
    ensures verdict.Text? <==> IsUtf8(Join(pieces)) && NoNul(Join(pieces))
    ensures verdict.NulByte? ==> IsNul(Join(pieces), verdict.offset)
    ensures verdict.Invalid? ==> IsMalformed(Join(pieces), verdict.offset)
  {
    ghost var file := Join(pieces);
    WholeIsUtf8(file, 0);
    assert file[0..] == file && file[..|file|] == file;
    hide *;
    var buffer := new Byte[CHUNK + 3];
    var carry: nat, offset: nat, i: nat := 0, 0, 0;
    StartsEmpty(file);
    while i <= |pieces|
      invariant i <= |pieces| && carry <= 3 && offset + carry == |Join(pieces[..i])| <= |file|
      invariant buffer[..carry] == file[offset..offset + carry]
      invariant Whole(file, 0, offset) && NoNul(file[..offset + carry])
      decreases |pieces| - i
    {
      var piece := Piece(pieces, i);
      PieceInFile(pieces, i);
      verdict, carry, offset := NextChunk(buffer, piece, carry, offset, file);
      if !verdict.Text? || |piece| == 0 {
        return;
      }
      i := i + 1;
    }
  }

  lemma StartsEmpty(file: Bytes)
    ensures Join([]) == [] && Whole(file, 0, 0) && NoNul(file[..0]) && file[0..0] == []
  {
  }

  lemma ChunkInFile(file: Bytes, offset: nat, carry: nat, chunk: Bytes, piece: Bytes)
    requires offset + carry + |piece| <= |file| && |chunk| == carry + |piece|
    requires chunk[..carry] == file[offset..offset + carry] && chunk[carry..] == piece
    requires file[offset + carry..offset + carry + |piece|] == piece
    ensures file[offset..offset + |chunk|] == chunk
  {
  }

  lemma KeptInFile(file: Bytes, offset: nat, chunk: Bytes, end: nat)
    requires offset + |chunk| <= |file| && file[offset..offset + |chunk|] == chunk && end <= |chunk|
    ensures file[offset + end..offset + |chunk|] == chunk[end..]
  {
    assert forall k :: 0 <= k < |chunk| ==> file[offset + k] == chunk[k];
  }

  /// The piece is read behind the carried bytes; it fits.
  method ReadInto(buffer: array<Byte>, carry: nat, piece: Bytes)
    requires buffer.Length == CHUNK + 3 && carry <= 3 && |piece| <= CHUNK
    modifies buffer
    ensures buffer[..carry + |piece|] == old(buffer[..carry]) + piece
  {
    for k := 0 to |piece|
      invariant buffer[..carry + k] == old(buffer[..carry]) + piece[..k]
    {
      buffer[carry + k] := piece[k];
    }
    assert piece[..|piece|] == piece;
  }

  /// Moves the bytes of a cut sequence to the front.
  method Keep(buffer: array<Byte>, from: nat, count: nat)
    requires from + count <= buffer.Length
    modifies buffer
    ensures buffer[..count] == old(buffer[from..from + count])
  {
    for k := 0 to count
      invariant buffer[..k] == old(buffer[from..from + k])
      invariant buffer[from + k..] == old(buffer[from + k..])
    {
      assert buffer[from + k] == buffer[from + k..][0];
      buffer[k] := buffer[from + k];
    }
  }

  /// The next piece, or nothing at the end of the file.
  function Piece(pieces: seq<Bytes>, i: nat): Bytes {
    if i < |pieces| then pieces[i] else []
  }

  lemma PieceInFile(pieces: seq<Bytes>, i: nat)
    requires Reads(pieces) && i <= |pieces|
    ensures var at, piece := |Join(pieces[..i])|, Piece(pieces, i);
            && at + |piece| <= |Join(pieces)| && Join(pieces)[at..at + |piece|] == piece && |piece| <= CHUNK
            && (piece == [] ==> at == |Join(pieces)|)
            && (piece != [] ==> i < |pieces| && |Join(pieces[..i + 1])| == at + |piece|)
  {
    if i == |pieces| {
      assert pieces[..i] == pieces;
    } else {
      JoinPart(pieces, i);
      JoinLength(pieces[..i]);
      JoinLength(pieces[..i + 1]);
      StartOfPrefix(pieces[..i], pieces, i);
      StartOfPrefix(pieces[..i + 1], pieces, i + 1);
    }
  }

  lemma NulInFile(file: Bytes, offset: nat, carry: nat, chunk: Bytes, at: nat)
    requires offset + |chunk| <= |file| && file[offset..offset + |chunk|] == chunk && carry <= |chunk|
    requires NoNul(file[..offset + carry]) && at < |chunk| && chunk[at] == 0 && NoNul(chunk[..at])
    ensures IsNul(file, offset + at) && !NoNul(file)
  {
    assert forall k :: 0 <= k < |chunk| ==> file[offset + k] == chunk[k];
    forall k | 0 <= k < offset + at ensures file[k] != 0 {
      if k < offset { assert file[..offset + carry][k] == file[k]; } else { assert chunk[..at][k - offset] == file[k]; }
    }
  }

  lemma NoNulLonger(file: Bytes, offset: nat, carry: nat, chunk: Bytes)
    requires offset + |chunk| <= |file| && file[offset..offset + |chunk|] == chunk && carry <= |chunk|
    requires NoNul(file[..offset + carry]) && NoNul(chunk)
    ensures NoNul(file[..offset + |chunk|])
  {
    forall k | 0 <= k < offset + |chunk| ensures file[k] != 0 {
      if k < offset { assert file[..offset + carry][k] == file[k]; } else { assert chunk[k - offset] == file[k]; }
    }
  }

  lemma InvalidInFile(file: Bytes, offset: nat, chunk: Bytes, end: nat, at: nat, atEnd: bool)
    requires offset + |chunk| <= |file| && file[offset..offset + |chunk|] == chunk && end <= |chunk|
    requires Whole(file, 0, offset) && at < end && Whole(chunk[..end], 0, at) && CharAt(chunk[..end], at) == 0
    requires if atEnd then end == |chunk| && offset + |chunk| == |file|
             else forall more: Bytes :: CharAt(chunk[..end], at) == 0 ==> CharAt(chunk + more, at) == 0
    ensures IsMalformed(file, offset + at) && !Whole(file, 0, |file|)
  {
    hide *;
    SliceShorter(file, offset, chunk, end);
    WholeInside(file, offset, chunk[..end], 0, at);
    WholeJoins(file, 0, offset, offset + at);
    MalformedInRest(file, offset, chunk, end, at, atEnd);
    MalformedAt(file, offset + at);
    IsMalformedAt(file, offset + at);
  }

  lemma IsMalformedAt(file: Bytes, at: nat)
    requires at < |file| && Whole(file, 0, at) && CharAt(file, at) == 0
    ensures IsMalformed(file, at)
  {
  }

  lemma MalformedInRest(file: Bytes, offset: nat, chunk: Bytes, end: nat, at: nat, atEnd: bool)
    requires offset + |chunk| <= |file| && file[offset..offset + |chunk|] == chunk && end <= |chunk| && at < end
    requires CharAt(chunk[..end], at) == 0
    requires if atEnd then end == |chunk| && offset + |chunk| == |file|
             else forall more: Bytes :: CharAt(chunk[..end], at) == 0 ==> CharAt(chunk + more, at) == 0
    ensures CharAt(file, offset + at) == 0
  {
    hide CharAt;
    var more := file[offset + |chunk|..];
    assert file[offset..] == chunk + more;
    CharAtShifted(file, offset, at);
    if atEnd {
      assert chunk + more == chunk && chunk[..end] == chunk;
    }
  }

  lemma CharAtShifted(file: Bytes, offset: nat, at: nat)
    requires offset + at < |file|
    ensures CharAt(file[offset..], at) == CharAt(file, offset + at)
  {
    assert forall k :: 0 <= k < |file| - offset ==> file[offset..][k] == file[offset + k];
  }
}
