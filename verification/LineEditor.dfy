/** The line editor: a byte buffer with two cursors that behaves like an editor of code points. */
module LineEditor {
  import opened Octets
  import opened Utf8

  // ---------------------------------------------------------------- the editor that is meant

  /** A line of code points and the cursor between two of them. */
  datatype Doc = Doc(text: seq<Point>, cursor: nat)

  predicate InDoc(d: Doc) {
    d.cursor <= |d.text|
  }

  function Inserted(d: Doc, c: Point): (r: Doc)
    requires InDoc(d)
    ensures InDoc(r)
  {
    Doc(d.text[..d.cursor] + [c] + d.text[d.cursor..], d.cursor + 1)
  }

  /** Without the code point at the cursor, if there is one. */
  function Deleted(d: Doc): (r: Doc)
    requires InDoc(d)
    ensures InDoc(r)
  {
    if d.cursor == |d.text| then d else d.(text := d.text[..d.cursor] + d.text[d.cursor + 1..])
  }

  function Backspaced(d: Doc): (r: Doc)
    requires InDoc(d)
    ensures InDoc(r)
  {
    if d.cursor == 0 then d else Deleted(d.(cursor := d.cursor - 1))
  }

  /** Back over code points that are, or are not, white space. */
  function SkipLeft(text: seq<Point>, k: nat, isSpace: int -> bool, space: bool): (r: nat)
    requires k <= |text|
    ensures r <= k
    ensures forall i | r <= i < k :: isSpace(text[i]) == space
    ensures r > 0 ==> isSpace(text[r - 1]) != space
  {
    if k > 0 && isSpace(text[k - 1]) == space then SkipLeft(text, k - 1, isSpace, space) else k
  }

  /** One code point back in the bytes of a text. */
  lemma StepBack(text: seq<Point>, k: nat)
    requires 0 < k <= |text|
    ensures Offset(text, k) <= |Encode(text)| && PrevPos(Encode(text), Offset(text, k)) == Offset(text, k - 1)
    ensures Offset(text, k - 1) < |Encode(text)| && DecodeUtf8(Encode(text), Offset(text, k - 1)).0 == text[k - 1]
  {
    hide *;
    StepsOverPoint(text, k - 1);
    DecodePoint(text, k - 1);
  }

  lemma SkipLeftOne(text: seq<Point>, k: nat, isSpace: int -> bool, space: bool)
    requires 0 < k <= |text|
    ensures SkipLeft(text, k, isSpace, space) ==
      if isSpace(text[k - 1]) == space then SkipLeft(text, k - 1, isSpace, space) else k
  {
  }

  lemma SkipLeftNone(text: seq<Point>, isSpace: int -> bool, space: bool)
    ensures SkipLeft(text, 0, isSpace, space) == 0
  {
  }

  function SkipRight(text: seq<Point>, k: nat, isSpace: int -> bool, space: bool): (r: nat)
    requires k <= |text|
    ensures k <= r <= |text|
    ensures forall i | k <= i < r :: isSpace(text[i]) == space
    ensures r < |text| ==> isSpace(text[r]) != space
    decreases |text| - k
  {
    if k < |text| && isSpace(text[k]) == space then SkipRight(text, k + 1, isSpace, space) else k
  }

  /** To the start of the word on the left. */
  function WordLeft(d: Doc, isSpace: int -> bool): (r: Doc)
    requires InDoc(d)
    ensures InDoc(r)
  {
    d.(cursor := SkipLeft(d.text, SkipLeft(d.text, d.cursor, isSpace, true), isSpace, false))
  }

  /** Past the word on the right and the white space behind it. */
  function WordRight(d: Doc, isSpace: int -> bool): (r: Doc)
    requires InDoc(d)
    ensures InDoc(r)
  {
    d.(cursor := SkipRight(d.text, SkipRight(d.text, SkipRight(d.text, d.cursor, isSpace, true), isSpace, false), isSpace, true))
  }

  /** A word starts at the code point: it is no white space, and none stands before it but white space. */
  predicate WordStart(text: seq<Point>, i: nat, isSpace: int -> bool) {
    i < |text| && !isSpace(text[i]) && (i > 0 ==> isSpace(text[i - 1]))
  }

  /** To the last word start before the cursor, or to the start of the line. */
  lemma WordLeftStops(d: Doc, isSpace: int -> bool)
    requires InDoc(d)
    ensures var r := After(d, WordLeftKey, isSpace);
      && r.text == d.text && (d.cursor > 0 ==> r.cursor < d.cursor)
      && (r.cursor == 0 || WordStart(d.text, r.cursor, isSpace))
      && forall i | r.cursor < i < d.cursor :: !WordStart(d.text, i, isSpace)
  {
  }

  /** To the first word start behind the cursor, or behind the word that follows white space at the cursor, or to the end. */
  lemma WordRightStops(d: Doc, isSpace: int -> bool) returns (word: nat)
    requires InDoc(d)
    ensures var r := After(d, WordRightKey, isSpace);
      && r.text == d.text && d.cursor <= word <= r.cursor <= |d.text|
      && (forall i | d.cursor <= i < word :: isSpace(d.text[i]))
      && (word < |d.text| ==> !isSpace(d.text[word]) && word < r.cursor)
      && (r.cursor == |d.text| || WordStart(d.text, r.cursor, isSpace))
      && forall i | word < i < r.cursor :: !WordStart(d.text, i, isSpace)
  {
    word := SkipRight(d.text, d.cursor, isSpace, true);
  }

  /** How many code points end at or before a byte; all of them when no byte is given. */
  function CursorFor(text: seq<Point>, byte: int): (r: nat)
    ensures r <= |text|
  {
    if byte < 0 then |text|
    else if text == [] || |Bytes(text[0])| > byte then 0
    else 1 + CursorFor(text[1..], byte - |Bytes(text[0])|)
  }

  // ---------------------------------------------------------------- the buffer

  function Width(measure: int -> int, c: int): nat {
    if measure(c) < 0 then 0 else measure(c)
  }

  /** Appends the bytes of a code point; of anything larger, nothing. */
  function AppendUtf8(ch: nat, out: seq<Byte>): seq<Byte> {
    if ch <= 0x10FFFF then out + Bytes(ch) else out
  }

  class Editor {
    var line: seq<Byte>
    var widths: seq<nat>
    var charPos: nat
    var bytePos: nat
    /** The locale's test for white space. */
    const isSpace: int -> bool
    /** The width that the terminal reports for a character; negative if it cannot tell. */
    const measure: int -> int

    /** The buffer holds the document: its bytes, one width per code point, and both cursors. */
    ghost predicate Shows(d: Doc)
      reads this
    {
      && InDoc(d) && line == Encode(d.text)
      && |widths| == |d.text| && (forall i | 0 <= i < |widths| :: widths[i] == Width(measure, d.text[i]))
      && charPos == d.cursor && bytePos == Offset(d.text, d.cursor)
    }

    constructor (isSpace: int -> bool, measure: int -> int)
      ensures Shows(Doc([], 0)) && this.isSpace == isSpace && this.measure == measure
    {
      this.measure := measure;
      line, widths, charPos, bytePos := [], [], 0, 0;
      this.isSpace := isSpace;
    }

    /** What the source asserts before every key. */
    lemma CursorsAgree(d: Doc)
      requires Shows(d)
      ensures charPos <= bytePos <= |line| && charPos <= |widths|
    {
      EncodeAt(d.text, d.cursor);
    }

    method Left(ghost d: Doc)
      requires Shows(d)
      modifies `charPos, `bytePos
      ensures Shows(d.(cursor := if d.cursor > 0 then d.cursor - 1 else 0))
    {
      if charPos > 0 {
        StepsOverPoint(d.text, d.cursor - 1);
        charPos := charPos - 1;
        bytePos := PrevUtf8CharPos(line, bytePos);
      }
    }

    method Right(ghost d: Doc)
      requires Shows(d)
      modifies `charPos, `bytePos
      ensures Shows(d.(cursor := if d.cursor < |d.text| then d.cursor + 1 else d.cursor))
    {
      if charPos < |widths| {
        StepsOverPoint(d.text, d.cursor);
        charPos := charPos + 1;
        bytePos := NextUtf8CharPos(line, bytePos);
      }
    }

    method MoveToLineStart(ghost d: Doc)
      requires Shows(d)
      modifies `charPos, `bytePos
      ensures Shows(d.(cursor := 0))
    {
      charPos := 0;
      bytePos := 0;
    }

    method MoveToLineEnd(ghost d: Doc)
      requires Shows(d)
      modifies `charPos, `bytePos
      ensures Shows(d.(cursor := |d.text|))
    {
      charPos := |widths|;
      bytePos := |line|;
      assert d.text[..|d.text|] == d.text;
    }

    method DeleteAtCursor(ghost d: Doc)
      requires Shows(d)
      modifies `line, `widths
      ensures Shows(Deleted(d))
    {
      hide Bytes, Encode, Offset, NextPos;
      if charPos >= |widths| {
        return;
      }
      StepsOverPoint(d.text, d.cursor);
      RemovedPoint(d.text, d.cursor);
      var nextPos := NextUtf8CharPos(line, bytePos);
      line := line[..bytePos] + line[nextPos..];
      widths := widths[..charPos] + widths[charPos + 1..];
    }

    method Backspace(ghost d: Doc)
      requires Shows(d)
      modifies this
      ensures Shows(Backspaced(d))
    {
      if charPos > 0 {
        StepsOverPoint(d.text, d.cursor - 1);
        RemovedPoint(d.text, d.cursor - 1);
        charPos := charPos - 1;
        var prevPos := PrevUtf8CharPos(line, bytePos);
        line := line[..prevPos] + line[bytePos..];
        bytePos := prevPos;
        widths := widths[..charPos] + widths[charPos + 1..];
      }
    }

    /**
     Any 32-bit value may come from the keyboard. Beyond 0x10FFFF no byte is stored, but a width is: the
     buffer then shows no document any more, and if only single-byte characters stand before the cursor, as on an
     empty line, the cursors break the first assertion of the next round.
     */
    method InsertChar(ch: nat, ghost d: Doc)
      requires Shows(d)
      modifies this
      ensures ch <= 0x10FFFF ==> Shows(Inserted(d, ch))
      ensures ch > 0x10FFFF ==> line == old(line) && |widths| == old(|widths|) + 1
      ensures ch > 0x10FFFF ==> bytePos == old(bytePos) && charPos == old(charPos) + 1
      ensures ch > 0x10FFFF ==> (charPos > bytePos <==> old(charPos) == old(bytePos))
      ensures (exists d' :: Shows(d')) <==> ch <= 0x10FFFF
    {
      hide Bytes, Encode, Offset;
      var bytes := AppendUtf8(ch, []);
      var width := Width(measure, ch);
      InsertedBytes(d, ch, bytes);
      CursorsAgree(d);
      ShowsCounts(d);
      Splice(bytes, width);
      if ch <= 0x10FFFF {
        assert Shows(Inserted(d, ch));
      } else {
        forall d' | Shows(d') ensures false {
          ShowsCounts(d');
        }
      }
    }

    /** Puts bytes and a width where the cursors are, and moves the cursors behind them. */
    method Splice(bytes: seq<Byte>, width: nat)
      requires bytePos <= |line| && charPos <= |widths| && (charPos == |widths| ==> bytePos == |line|)
      modifies `line, `widths, `charPos, `bytePos
      ensures line == old(line[..bytePos]) + bytes + old(line[bytePos..])
      ensures widths == old(widths[..charPos]) + [width] + old(widths[charPos..])
      ensures bytePos == old(bytePos) + |bytes| && charPos == old(charPos) + 1
    {
      if charPos == |widths| {
        assert line[..bytePos] == line && line[bytePos..] == [] && widths[..charPos] == widths && widths[charPos..] == [];
        line := line + bytes;
        widths := widths + [width];
      } else {
        line := line[..bytePos] + bytes + line[bytePos..];
        widths := widths[..charPos] + [width] + widths[charPos..];
      }
      bytePos := bytePos + |bytes|;
      charPos := charPos + 1;
    }

    method MoveWordLeft(ghost d: Doc)
      requires Shows(d)
      modifies `charPos, `bytePos
      ensures Shows(WordLeft(d, isSpace))
    {
      if charPos == 0 {
        return;
      }
      var newChar, newByte := SkipBack(d, charPos, bytePos, true);
      newChar, newByte := SkipBack(d, newChar, newByte, false);
      charPos, bytePos := newChar, newByte;
    }

    /** One of the two loops to the left: over white space, or over everything else. */
    method SkipBack(ghost d: Doc, char0: nat, byte0: nat, space: bool) returns (newChar: nat, newByte: nat)
      requires Shows(d) && char0 <= |d.text| && byte0 == Offset(d.text, char0)
      ensures newChar == SkipLeft(d.text, char0, isSpace, space) && newByte == Offset(d.text, newChar)
    {
      hide *;
      ShowsText(d);
      newChar, newByte := char0, byte0;
      SkipLeftNone(d.text, isSpace, space);
      while newChar > 0
        invariant newChar <= |d.text| && newByte == Offset(d.text, newChar)
        invariant SkipLeft(d.text, newChar, isSpace, space) == SkipLeft(d.text, char0, isSpace, space)
      {
        StepBack(d.text, newChar);
        SkipLeftOne(d.text, newChar, isSpace, space);
        var prevByte := PrevUtf8CharPos(line, newByte);
        if isSpace(DecodeUtf8(line, prevByte).0) != space {
          break;
        }
        newChar := newChar - 1;
        newByte := prevByte;
      }
    }

    /** There are as many widths as code points in the line. */
    lemma ShowsCounts(d: Doc)
      requires Shows(d)
      ensures |widths| == Heads(line)
    {
      hide Encode;
      HeadsOfEncoding(d.text);
    }

    lemma ShowsText(d: Doc)
      requires Shows(d)
      ensures line == Encode(d.text) && |widths| == |d.text|
    {
    }

    method MoveWordRight(ghost d: Doc)
      requires Shows(d)
      modifies `charPos, `bytePos
      ensures Shows(WordRight(d, isSpace))
    {
      if charPos >= |widths| {
        return;
      }
      var newChar, newByte := SkipForward(d, charPos, bytePos, true);
      newChar, newByte := SkipForward(d, newChar, newByte, false);
      newChar, newByte := SkipForward(d, newChar, newByte, true);
      charPos, bytePos := newChar, newByte;
    }

    /** One of the three loops to the right: over white space, or over everything else. */
    method SkipForward(ghost d: Doc, char0: nat, byte0: nat, space: bool) returns (newChar: nat, newByte: nat)
      requires Shows(d) && char0 <= |d.text| && byte0 == Offset(d.text, char0)
      ensures newChar == SkipRight(d.text, char0, isSpace, space) && newByte == Offset(d.text, newChar)
    {
      hide DecodeUtf8, Encode, Bytes, Offset;
      newChar, newByte := char0, byte0;
      while newChar < |widths|
        invariant newChar <= |d.text| && newByte == Offset(d.text, newChar)
        invariant SkipRight(d.text, newChar, isSpace, space) == SkipRight(d.text, char0, isSpace, space)
        decreases |widths| - newChar
      {
        DecodePoint(d.text, newChar);
        var (c, advance) := DecodeUtf8(line, newByte);
        if isSpace(c) != space {
          break;
        }
        newChar := newChar + 1;
        newByte := newByte + advance;
      }
    }

    /**
     Replaces the line. Whatever the new bytes are, the source's assertions hold afterwards; for the bytes of
     a text the buffer shows that text, with the cursor at the given byte or at the end.
     */
    method SetLineContents(newLine: seq<Byte>, cursorByte: int)
      modifies this
      ensures line == newLine && charPos <= bytePos <= |line| && charPos <= |widths|
      ensures forall text | newLine == Encode(text) :: Shows(Doc(text, CursorFor(text, cursorByte)))
    {
      hide DecodeUtf8, Bytes, CursorFor;
      line, widths, bytePos, charPos := newLine, [], 0, 0;
      var idx := 0;
      while idx < |line|
        invariant line == newLine && bytePos <= idx <= |line| && charPos <= |widths| && charPos <= bytePos
        invariant forall text | newLine == Encode(text) :: ReadSoFar(text, cursorByte, measure, widths, idx, charPos, bytePos)
        decreases |line| - idx
      {
        var (c, advance) := DecodeUtf8(line, idx);
        ghost var widths0, idx0, char0, byte0 := widths, idx, charPos, bytePos;
        widths := widths + [Width(measure, c)];
        idx := idx + advance;
        if cursorByte < 0 || cursorByte >= idx {
          charPos := charPos + 1;
          bytePos := idx;
        }
        forall text | newLine == Encode(text) ensures ReadSoFar(text, cursorByte, measure, widths, idx, charPos, bytePos) {
          assert ReadSoFar(text, cursorByte, measure, widths0, idx0, char0, byte0);
          ReadOne(text, cursorByte, measure, widths0, idx0, char0, byte0);
        }
      }
      forall text | newLine == Encode(text) ensures Shows(Doc(text, CursorFor(text, cursorByte))) {
        assert ReadSoFar(text, cursorByte, measure, widths, idx, charPos, bytePos);
        ReadAll(text, |widths|);
      }
    }

    /** One key. */
    method Press(key: Key, ghost d: Doc)
      requires Shows(d)
      modifies this
      ensures Shows(After(d, key, isSpace))
    {
      match key {
        case Insert(c) => InsertChar(c, d);
        case BackspaceKey => Backspace(d);
        case DeleteKey => DeleteAtCursor(d);
        case LeftKey => Left(d);
        case RightKey => Right(d);
        case Home => MoveToLineStart(d);
        case End => MoveToLineEnd(d);
        case WordLeftKey => MoveWordLeft(d);
        case WordRightKey => MoveWordRight(d);
        case SetLine(text, cursorByte) => SetLineContents(Encode(text), cursorByte);
      }
    }

    /** A whole session: the assertions hold before every key, and the line is what the plain editor makes of the keys. */
    method ReadLine(keys: seq<Key>)
      modifies this
      ensures Shows(AfterAll(Doc([], 0), keys, isSpace))
    {
      line, widths, charPos, bytePos := [], [], 0, 0;
      ghost var d := Doc([], 0);
      for i := 0 to |keys|
        invariant Shows(d) && AfterAll(d, keys[i..], isSpace) == AfterAll(Doc([], 0), keys, isSpace)
      {
        CursorsAgree(d);
        assert charPos <= bytePos;
        assert charPos <= |widths|;
        assert keys[i..][1..] == keys[i + 1..];
        Press(keys[i], d);
        d := After(d, keys[i], isSpace);
      }
    }
  }

  // ---------------------------------------------------------------- keys

  datatype Key =
    | Insert(c: Point)
    | BackspaceKey | DeleteKey
    | LeftKey | RightKey | Home | End | WordLeftKey | WordRightKey
    | SetLine(text: seq<Point>, cursorByte: int)

  /** What a key does to a document. */
  function After(d: Doc, key: Key, isSpace: int -> bool): (r: Doc)
    requires InDoc(d)
    ensures InDoc(r)
  {
    match key
    case Insert(c) => Inserted(d, c)
    case BackspaceKey => Backspaced(d)
    case DeleteKey => Deleted(d)
    case LeftKey => d.(cursor := if d.cursor > 0 then d.cursor - 1 else 0)
    case RightKey => d.(cursor := if d.cursor < |d.text| then d.cursor + 1 else d.cursor)
    case Home => d.(cursor := 0)
    case End => d.(cursor := |d.text|)
    case WordLeftKey => WordLeft(d, isSpace)
    case WordRightKey => WordRight(d, isSpace)
    case SetLine(text, cursorByte) => Doc(text, CursorFor(text, cursorByte))
  }

  function AfterAll(d: Doc, keys: seq<Key>, isSpace: int -> bool): (r: Doc)
    requires InDoc(d)
    ensures InDoc(r)
    decreases keys
  {
    if keys == [] then d else AfterAll(After(d, keys[0], isSpace), keys[1..], isSpace)
  }

  /** What the keys do between what stands before and behind the cursor. */
  lemma KeysAtCursor(before: seq<Point>, c: Point, behind: seq<Point>, isSpace: int -> bool)
    ensures var here, without, behindC :=
        Doc(before + [c] + behind, |before|), Doc(before + behind, |before|), Doc(before + [c] + behind, |before| + 1);
      && After(without, Insert(c), isSpace) == behindC
      && After(here, DeleteKey, isSpace) == without && After(behindC, BackspaceKey, isSpace) == without
      && After(here, RightKey, isSpace) == behindC && After(behindC, LeftKey, isSpace) == here
  {
    var text, all := before + behind, before + [c] + behind;
    assert text[..|before|] == before && text[|before|..] == behind;
    assert all[..|before|] == before && all[|before| + 1..] == behind;
  }

  /** And what they do at the ends of the line. */
  lemma KeysAtEnds(text: seq<Point>, cursor: nat, isSpace: int -> bool)
    requires cursor <= |text|
    ensures var start, end := Doc(text, 0), Doc(text, |text|);
      && After(Doc(text, cursor), Home, isSpace) == start && After(Doc(text, cursor), End, isSpace) == end
      && After(start, BackspaceKey, isSpace) == After(start, LeftKey, isSpace) == start
      && After(end, DeleteKey, isSpace) == After(end, RightKey, isSpace) == end
  {
  }

  // ---------------------------------------------------------------- lemmas

  /** What the two ways of inserting do to the bytes. */
  lemma InsertedBytes(d: Doc, ch: nat, bytes: seq<Byte>)
    requires InDoc(d) && bytes == AppendUtf8(ch, [])
    ensures Offset(d.text, d.cursor) <= |Encode(d.text)|
    ensures d.cursor == |d.text| ==> Offset(d.text, d.cursor) == |Encode(d.text)|
    ensures var at, line := Offset(d.text, d.cursor), Encode(d.text);
            && (ch <= 0x10FFFF ==> Encode(Inserted(d, ch).text) == line[..at] + bytes + line[at..])
            && (ch <= 0x10FFFF ==> Offset(Inserted(d, ch).text, d.cursor + 1) == at + |bytes|)
            && (ch > 0x10FFFF ==> line + bytes == line == line[..at] + bytes + line[at..])
            && (d.cursor == |d.text| ==> line[..at] + bytes + line[at..] == line + bytes)
  {
    hide Bytes, Encode;
    EncodeAt(d.text, d.cursor);
    if d.cursor == |d.text| {
      assert d.text[..d.cursor] == d.text;
    }
    if ch <= 0x10FFFF {
      assert bytes == Bytes(ch);
      AddedPoint(d.text, d.cursor, ch);
    }
  }

  /** The new line has been read up to code point `k`. */
  predicate ReadSoFar(text: seq<Point>, cursorByte: int, measure: int -> int, widths: seq<nat>, idx: nat, charPos: nat, bytePos: nat) {
    var k := |widths|;
    && k <= |text| && idx == Offset(text, k)
    && (forall i | 0 <= i < k :: widths[i] == Width(measure, text[i]))
    && charPos == (if k <= CursorFor(text, cursorByte) then k else CursorFor(text, cursorByte))
    && bytePos == Offset(text, charPos)
  }

  /** A code point lies before the cursor exactly if it ends at or before the byte. */
  lemma {:induction false} BeforeCursor(text: seq<Point>, byte: int, k: nat)
    requires k < |text|
    ensures k < CursorFor(text, byte) <==> byte < 0 || Offset(text, k + 1) <= byte
  {
    hide Bytes;
    OffsetNext(text, 0);
    assert text[..0] == [];
    if byte >= 0 {
      if k > 0 {
        OffsetShift(text, k + 1);
        if |Bytes(text[0])| <= byte {
          BeforeCursor(text[1..], byte - |Bytes(text[0])|, k - 1);
        }
      }
    }
  }

  lemma OffsetShift(text: seq<Point>, k: nat)
    requires 0 < k <= |text|
    ensures Offset(text, k) == |Bytes(text[0])| + Offset(text[1..], k - 1)
  {
    assert text[..k][1..] == text[1..][..k - 1];
  }

  lemma ReadOne(text: seq<Point>, cursorByte: int, measure: int -> int, widths: seq<nat>, idx: nat, charPos: nat, bytePos: nat)
    requires ReadSoFar(text, cursorByte, measure, widths, idx, charPos, bytePos) && idx < |Encode(text)|
    ensures var (c, advance) := DecodeUtf8(Encode(text), idx);
            var idx', widths' := idx + advance, widths + [Width(measure, c)];
            if cursorByte < 0 || cursorByte >= idx' then ReadSoFar(text, cursorByte, measure, widths', idx', charPos + 1, idx')
            else ReadSoFar(text, cursorByte, measure, widths', idx', charPos, bytePos)
  {
    hide Offset, Encode, Bytes, DecodeUtf8, CursorFor;
    WholeOffset(text);
    DecodePoint(text, |widths|);
    BeforeCursor(text, cursorByte, |widths|);
  }

  lemma WholeOffset(text: seq<Point>)
    ensures Offset(text, |text|) == |Encode(text)|
  {
    assert text[..|text|] == text;
  }

  lemma ReadAll(text: seq<Point>, k: nat)
    requires k <= |text| && Offset(text, k) == |Encode(text)|
    ensures k == |text|
  {
    if k < |text| { OffsetNext(text, k); }
  }

  /** Taking the bytes of one code point out takes that code point out. */
  lemma RemovedPoint(s: seq<Point>, k: nat)
    requires k < |s|
    ensures Offset(s, k) <= Offset(s, k + 1) <= |Encode(s)|
    ensures Encode(s[..k] + s[k + 1..]) == Encode(s)[..Offset(s, k)] + Encode(s)[Offset(s, k + 1)..]
    ensures Offset(s[..k] + s[k + 1..], k) == Offset(s, k)
  {
    OffsetNext(s, k);
    EncodeAt(s, k);
    EncodeAt(s, k + 1);
    EncodeConcat(s[..k], s[k + 1..]);
    assert (s[..k] + s[k + 1..])[..k] == s[..k];
  }

  /** Putting the bytes of a code point in puts that code point in. */
  lemma AddedPoint(s: seq<Point>, k: nat, c: Point)
    requires k <= |s|
    ensures Offset(s, k) <= |Encode(s)|
    ensures Encode(s[..k] + [c] + s[k..]) == Encode(s)[..Offset(s, k)] + Bytes(c) + Encode(s)[Offset(s, k)..]
    ensures Offset(s[..k] + [c] + s[k..], k + 1) == Offset(s, k) + |Bytes(c)|
  {
    hide Bytes;
    EncodeAt(s, k);
    EncodeConcat(s[..k], [c]);
    EncodeConcat(s[..k] + [c], s[k..]);
    assert [c][1..] == [] && Encode([c]) == Bytes(c) + [] == Bytes(c);
    assert (s[..k] + [c] + s[k..])[..k + 1] == s[..k] + [c];
  }
}
