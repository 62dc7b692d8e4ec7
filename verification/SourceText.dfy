/** Line and column of a byte offset in UTF-8 source text, and the way back. */
module SourceText {
  import opened Base

  const NEWLINE: byte := 0x0A

  predicate Between(s: Bytes, i: nat, low: byte, high: byte) {
    i < |s| && low <= s[i] <= high
  }

  /** Bytes the rune at `i` takes when Go ranges over a string: a malformed sequence is one byte wide. */
  function RuneWidth(s: Bytes, i: nat): (w: nat)
    requires i < |s|
    ensures 1 <= w && i + w <= |s|
    ensures forall j :: i < j < i + w ==> s[j] != NEWLINE
    ensures s[i] == NEWLINE ==> w == 1
  {
    var b := s[i];
    if 0xC2 <= b <= 0xDF && Between(s, i + 1, 0x80, 0xBF) then 2
    else if 0xE0 <= b <= 0xEF
      && Between(s, i + 1, if b == 0xE0 then 0xA0 else 0x80, if b == 0xED then 0x9F else 0xBF)
      && Between(s, i + 2, 0x80, 0xBF) then 3
    else if 0xF0 <= b <= 0xF4
      && Between(s, i + 1, if b == 0xF0 then 0x90 else 0x80, if b == 0xF4 then 0x8F else 0xBF)
      && Between(s, i + 2, 0x80, 0xBF) && Between(s, i + 3, 0x80, 0xBF) then 4
    else 1
  }

  /** Line and column, both from 1. */
  datatype Place = Place(line: nat, column: nat)

  const START := Place(1, 1)

  function Past(p: Place, b: byte): Place {
    if b == NEWLINE then Place(p.line + 1, 1) else Place(p.line, p.column + 1)
  }

  /** A rune starts at `offset`, or the text ends there, reading on from `from`. */
  predicate Boundary(s: Bytes, from: nat, offset: nat)
    decreases |s| - from
  {
    from == offset || (from < |s| && from < offset && Boundary(s, from + RuneWidth(s, from), offset))
  }

  /** The first boundary at or after `offset`. */
  function RoundUp(s: Bytes, from: nat, offset: nat): (r: nat)
    requires from <= |s|
    ensures from <= r <= |s| && (offset <= |s| ==> offset <= r)
    ensures Boundary(s, from, r)
    decreases |s| - from
  {
    if from >= |s| || from >= offset then from else RoundUp(s, from + RuneWidth(s, from), offset)
  }

  /** The place of `offset`, reading on from `from`, which is at `p`. */
  function PlaceFrom(s: Bytes, from: nat, p: Place, offset: nat): Place
    decreases |s| - from
  {
    if from >= |s| || from >= offset then p
    else PlaceFrom(s, from + RuneWidth(s, from), Past(p, s[from]), offset)
  }

  /** The offset of a place, reading on from `from`, which is at `p`. */
  function Find(s: Bytes, from: nat, p: Place, wanted: Place): Option<nat>
    requires from <= |s|
    decreases |s| - from
  {
    if p == wanted then Some(from)
    else if from == |s| then None
    else Find(s, from + RuneWidth(s, from), Past(p, s[from]), wanted)
  }

  function Clamp(s: Bytes, offset: int): (c: nat)
    ensures c <= |s|
  {
    if offset <= 0 then 0 else Min(offset, |s|)
  }

  function PlaceOf(s: Bytes, offset: int): Place {
    PlaceFrom(s, 0, START, Clamp(s, offset))
  }

  function OffsetOf(s: Bytes, line: int, column: int): Option<nat> {
    if line <= 0 || column <= 0 then None else Find(s, 0, START, Place(line, column))
  }

  // ---------------------------------------------------------------- the two conversions

  /** OffsetForLineColumn */
  method OffsetForLineColumn(s: Bytes, line: int, column: int) returns (offset: Option<nat>)
    ensures offset == OffsetOf(s, line, column)
  {
    if line <= 0 || column <= 0 {
      return None;
    }
    var currentLine, currentColumn := 1, 1;
    var index := 0;
    while index < |s|
      invariant index <= |s| && 1 <= currentLine && 1 <= currentColumn
      invariant Find(s, 0, START, Place(line, column))
             == Find(s, index, Place(currentLine, currentColumn), Place(line, column))
      decreases |s| - index
    {
      if currentLine == line && currentColumn == column {
        return Some(index);
      }
      if s[index] == NEWLINE {
        currentLine := currentLine + 1;
        currentColumn := 1;
      } else {
        currentColumn := currentColumn + 1;
      }
      index := index + RuneWidth(s, index);
    }
    offset := if currentLine == line && currentColumn == column then Some(|s|) else None;
  }

  /** LineColumnForOffset */
  method LineColumnForOffset(s: Bytes, offset: int) returns (line: nat, column: nat)
    ensures Place(line, column) == PlaceOf(s, offset)
  {
    line, column := 1, 1;
    if offset <= 0 {
      return;
    }
    var limit: nat := if offset > |s| then |s| else offset;
    var index := 0;
    while index < |s|
      invariant index <= |s|
      invariant PlaceFrom(s, 0, START, limit) == PlaceFrom(s, index, Place(line, column), limit)
      decreases |s| - index
    {
      if index >= limit {
        break;
      }
      if s[index] == NEWLINE {
        line := line + 1;
        column := 1;
      } else {
        column := column + 1;
      }
      index := index + RuneWidth(s, index);
    }
  }

  // ---------------------------------------------------------------- they are inverse

  predicate Before(p: Place, q: Place) {
    p.line < q.line || (p.line == q.line && p.column < q.column)
  }

  /** Places grow along the text. */
  lemma {:induction false} PlacesGrow(s: Bytes, from: nat, p: Place, offset: nat)
    requires from < offset && from < |s|
    ensures Before(p, PlaceFrom(s, from, p, offset))
    decreases |s| - from
  {
    var next := from + RuneWidth(s, from);
    if next < offset && next < |s| {
      PlacesGrow(s, next, Past(p, s[from]), offset);
    }
  }

  lemma {:induction false} FindsPlace(s: Bytes, from: nat, p: Place, offset: nat)
    requires from <= |s|
    ensures Find(s, from, p, PlaceFrom(s, from, p, offset)) == Some(RoundUp(s, from, offset))
    decreases |s| - from
  {
    if from < |s| && from < offset {
      PlacesGrow(s, from, p, offset);
      FindsPlace(s, from + RuneWidth(s, from), Past(p, s[from]), offset);
    }
  }

  /** The place found for any offset at all leads back to the first rune boundary at or after it. */
  lemma OffsetOfPlace(s: Bytes, offset: int)
    ensures var p := PlaceOf(s, offset); OffsetOf(s, p.line, p.column) == Some(RoundUp(s, 0, Clamp(s, offset)))
  {
    FindsPlace(s, 0, START, Clamp(s, offset));
    PlaceIsPositive(s, 0, START, Clamp(s, offset));
  }

  lemma {:induction false} PlaceIsPositive(s: Bytes, from: nat, p: Place, offset: nat)
    requires p.line >= 1 && p.column >= 1
    ensures var q := PlaceFrom(s, from, p, offset); q.line >= 1 && q.column >= 1
    decreases |s| - from
  {
    if from < |s| && from < offset {
      PlaceIsPositive(s, from + RuneWidth(s, from), Past(p, s[from]), offset);
    }
  }

  lemma {:induction false} BoundaryIsRound(s: Bytes, from: nat, offset: nat)
    requires from <= |s| && Boundary(s, from, offset)
    ensures RoundUp(s, from, offset) == offset
    decreases |s| - from
  {
    if from != offset {
      BoundaryIsRound(s, from + RuneWidth(s, from), offset);
    }
  }

  /** So at a rune boundary, end of text included, offset to place and back is the identity. */
  lemma OffsetRoundTrip(s: Bytes, offset: nat)
    requires offset <= |s| && Boundary(s, 0, offset)
    ensures var p := PlaceOf(s, offset); OffsetOf(s, p.line, p.column) == Some(offset)
  {
    OffsetOfPlace(s, offset);
    BoundaryIsRound(s, 0, offset);
  }

  lemma {:induction false} FoundIsThere(s: Bytes, from: nat, p: Place, wanted: Place)
    requires from <= |s| && Find(s, from, p, wanted).Some?
    ensures var o := Find(s, from, p, wanted).value;
      from <= o <= |s| && Boundary(s, from, o) && PlaceFrom(s, from, p, o) == wanted
    decreases |s| - from
  {
    if p != wanted {
      FoundIsThere(s, from + RuneWidth(s, from), Past(p, s[from]), wanted);
    }
  }

  /** A place resolves exactly when it is the place of some boundary, and then of the one it resolves to. */
  lemma ResolvesIff(s: Bytes, line: int, column: int)
    ensures var o := OffsetOf(s, line, column);
      && (o.Some? ==> o.value <= |s| && Boundary(s, 0, o.value)
                      && PlaceOf(s, o.value).line == line && PlaceOf(s, o.value).column == column)
      && (o.Some? <==> exists b: nat :: b <= |s| && Boundary(s, 0, b)
                                        && PlaceOf(s, b).line == line && PlaceOf(s, b).column == column)
  {
    hide Boundary;
    if OffsetOf(s, line, column).Some? {
      FoundIsThere(s, 0, START, Place(line, column));
    }
    if b: nat :| b <= |s| && Boundary(s, 0, b) && PlaceOf(s, b).line == line && PlaceOf(s, b).column == column {
      OffsetRoundTrip(s, b);
    }
  }

  // ---------------------------------------------------------------- what the line is

  function Newlines(s: Bytes): nat {
    if s == [] then 0 else Newlines(s[..|s| - 1]) + if s[|s| - 1] == NEWLINE then 1 else 0
  }

  lemma {:induction false} NoNewlines(s: Bytes, from: nat, to: nat)
    requires from <= to <= |s| && forall j :: from <= j < to ==> s[j] != NEWLINE
    ensures Newlines(s[..to]) == Newlines(s[..from])
  {
    if from < to {
      assert s[..to][..to - 1] == s[..to - 1];
      NoNewlines(s, from, to - 1);
    }
  }

  lemma {:induction false} LinesFrom(s: Bytes, from: nat, p: Place, offset: nat)
    requires from <= |s| && p.line == 1 + Newlines(s[..from])
    ensures PlaceFrom(s, from, p, offset).line == 1 + Newlines(s[..RoundUp(s, from, offset)])
    decreases |s| - from
  {
    if from < |s| && from < offset {
      var next := from + RuneWidth(s, from);
      assert s[..from + 1][..from] == s[..from];
      NoNewlines(s, from + 1, next);
      LinesFrom(s, next, Past(p, s[from]), offset);
    }
  }

  /** The line of an offset is one more than the newline bytes before the boundary it rounds up to. */
  lemma LineCountsNewlines(s: Bytes, offset: int)
    ensures PlaceOf(s, offset).line == 1 + Newlines(s[..RoundUp(s, 0, Clamp(s, offset))])
  {
    LinesFrom(s, 0, START, Clamp(s, offset));
  }

  // ---------------------------------------------------------------- what the column is

  lemma {:induction false} PlaceFromAdvances(s: Bytes, from: nat, p: Place, b: nat)
    requires from <= b < |s| && Boundary(s, from, b)
    ensures PlaceFrom(s, from, p, b + RuneWidth(s, b)) == Past(PlaceFrom(s, from, p, b), s[b])
    decreases b - from
  {
    if from < b {
      PlaceFromAdvances(s, from + RuneWidth(s, from), Past(p, s[from]), b);
    } else {
      assert PlaceFrom(s, from + RuneWidth(s, from), Past(p, s[from]), b + RuneWidth(s, b)) == Past(p, s[from]);
    }
  }

  /** A text starts at line 1, column 1; past a newline a line starts, past any other rune the column is one more. */
  lemma PlaceAdvances(s: Bytes, b: nat)
    requires b < |s| && Boundary(s, 0, b)
    ensures PlaceOf(s, 0) == Place(1, 1)
    ensures var p, next := PlaceOf(s, b), PlaceOf(s, b + RuneWidth(s, b));
      && (s[b] == 0x0A ==> next.line == p.line + 1 && next.column == 1)
      && (s[b] != 0x0A ==> next.line == p.line && next.column == p.column + 1)
  {
    PlaceFromAdvances(s, 0, START, b);
  }
}
