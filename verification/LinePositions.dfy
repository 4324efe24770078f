/** What a delivered line is, by its position in the file: independent of how the reader walks
    from line to line and of how it takes carriage returns off. */
module LinePositions {
  import opened LineParser

  predicate IsStart(f: File, s: nat) {
    s < |f| && (s == 0 || f[s - 1] == '\n')
  }

  /** A line break, or the end of the file. */
  predicate AtBreak(f: File, e: nat) {
    e == |f| || (e < |f| && f[e] == '\n')
  }

  /** The bytes from `s` to the next break, without the last one if that is a carriage return. */
  predicate IsLine(f: File, s: nat, line: Line) {
    var e := s + |line|;
    && e <= |f| && line == f[s..e] && '\n' !in line
    && (|| (AtBreak(f, e) && (line == [] || line[|line| - 1] != '\r'))
        || (e < |f| && f[e] == '\r' && AtBreak(f, e + 1)))
  }

  /** The positions between `pos` and `limit` at which a line starts. */
  function Starts(f: File, pos: nat, limit: nat): seq<nat>
    decreases |f| - pos
  {
    if pos >= |f| || pos > limit then []
    else (if IsStart(f, pos) then [pos] else []) + Starts(f, pos + 1, limit)
  }

  lemma {:induction false} LineEndIs(f: File, pos: nat, e: nat)
    requires pos <= e <= |f| && AtBreak(f, e) && forall i :: pos <= i < e ==> f[i] != '\n'
    ensures LineEnd(f, pos) == e
  {
    assert !(LineEnd(f, pos) < e);
    assert !(e < LineEnd(f, pos));
  }

  /** A line ends at its break, one byte earlier if that follows a carriage return. */
  lemma {:induction false} LineLength(f: File, s: nat, line: Line)
    requires IsLine(f, s, line)
    ensures s <= |f|
    ensures var e := LineEnd(f, s); |line| == if e > s && f[e - 1] == '\r' then e - s - 1 else e - s
  {
    var e := s + |line|;
    assert forall i :: s <= i < e ==> f[i] == line[i - s];
    if AtBreak(f, e) && (line == [] || line[|line| - 1] != '\r') {
      LineEndIs(f, s, e);
    } else {
      LineEndIs(f, s, e + 1);
    }
  }

  /** A position has only one line. */
  lemma {:induction false} LineIsUnique(f: File, s: nat, a: Line, b: Line)
    requires IsLine(f, s, a) && IsLine(f, s, b)
    ensures a == b
  {
    LineLength(f, s, a);
    LineLength(f, s, b);
  }

  // ----- the lines that the readers pass on -----

  lemma {:induction false} StrippedIsLine(f: File, pos: nat)
    requires pos < |f|
    ensures IsLine(f, pos, StripCR(f[pos..LineEnd(f, pos)]))
  {
    var e := LineEnd(f, pos);
    var whole := f[pos..e];
    assert forall i :: 0 <= i < |whole| ==> whole[i] == f[pos + i];
  }

  lemma {:induction false} NoStarts(f: File, pos: nat, next: nat, limit: nat)
    requires pos <= next <= |f| && forall k :: pos <= k < next ==> !IsStart(f, k)
    ensures Starts(f, pos, limit) == Starts(f, next, limit)
    decreases next - pos
  {
    if pos < next {
      NoStarts(f, pos + 1, next, limit);
      assert !IsStart(f, pos);
    }
  }

  lemma {:induction false} NoneInside(f: File, pos: nat, k: nat)
    requires pos < |f| && pos < k < NextStart(f, pos)
    ensures !IsStart(f, k)
  {
    hide LineEnd;
    assert f[k - 1] != '\n';
  }

  lemma {:induction false} StartsPeeled(f: File, pos: nat, limit: nat)
    requires IsStart(f, pos) && pos <= limit
    ensures Starts(f, pos, limit) == [pos] + Starts(f, NextStart(f, pos), limit)
    ensures NextStart(f, pos) == |f| || IsStart(f, NextStart(f, pos))
  {
    var next := NextStart(f, pos);
    assert next == |f| || IsStart(f, next);
    forall k | pos + 1 <= k < next ensures !IsStart(f, k) {
      NoneInside(f, pos, k);
    }
    hide NextStart;
    hide LineEnd;
    NoStarts(f, pos + 1, next, limit);
  }

  /** What is read from a line start to a limit: one line for every start up to there, in order. */
  lemma {:induction false} LinesByPosition(f: File, pos: nat, limit: nat)
    requires pos == |f| || IsStart(f, pos)
    ensures |LinesUpTo(f, pos, limit)| == |Starts(f, pos, limit)|
    ensures forall k :: 0 <= k < |Starts(f, pos, limit)| ==>
      IsLine(f, Starts(f, pos, limit)[k], LinesUpTo(f, pos, limit)[k])
    decreases |f| - pos
  {
    if pos < |f| && pos <= limit {
      var next := NextStart(f, pos);
      var line := StripCR(f[pos..LineEnd(f, pos)]);
      Peeled(f, pos, limit);
      StartsPeeled(f, pos, limit);
      StrippedIsLine(f, pos);
      LinesByPosition(f, next, limit);
      var starts, lines := Starts(f, next, limit), LinesUpTo(f, next, limit);
      hide *;
      forall k | 0 <= k < |starts| + 1 ensures IsLine(f, ([pos] + starts)[k], ([line] + lines)[k]) {
        if k > 0 {
          assert ([pos] + starts)[k] == starts[k - 1] && ([line] + lines)[k] == lines[k - 1];
        }
      }
    }
  }

  /** A sequential read passes on the line of every start of the file, in order, without the
      first if that is to be skipped. */
  lemma {:induction false} FileLinesByPosition(f: File, skipFirst: bool)
    ensures var starts, dropped := Starts(f, 0, |f|), if skipFirst && f != [] then 1 else 0;
      && |FileLines(f, skipFirst)| + dropped == |starts|
      && forall k :: dropped <= k < |starts| ==> IsLine(f, starts[k], FileLines(f, skipFirst)[k - dropped])
  {
    LinesByPosition(f, 0, |f|);
  }

  /** Every start of the file is among them. */
  lemma {:induction false} StartsAreAll(f: File, pos: nat, limit: nat, s: nat)
    requires pos <= s <= limit
    ensures s in Starts(f, pos, limit) <==> IsStart(f, s)
    decreases |f| - pos
  {
    if pos < |f| {
      if pos < s {
        StartsAreAll(f, pos + 1, limit, s);
      } else {
        StartsAfter(f, pos + 1, limit, s);
      }
    }
  }

  lemma {:induction false} StartsAfter(f: File, pos: nat, limit: nat, s: nat)
    requires s < pos
    ensures s !in Starts(f, pos, limit)
    decreases |f| - pos
  {
    if pos < |f| && pos <= limit {
      StartsAfter(f, pos + 1, limit, s);
    }
  }

  // ----- files from Windows -----

  /** The same text with a carriage return before every line break. */
  function Windows(f: File): File {
    if f == [] then [] else (if f[0] == '\n' then ['\r', '\n'] else [f[0]]) + Windows(f[1..])
  }

  lemma {:induction false} WindowsAppend(a: File, b: File)
    ensures Windows(a + b) == Windows(a) + Windows(b)
  {
    if a == [] {
      assert a + b == b;
    } else {
      assert (a + b)[1..] == a[1..] + b;
      WindowsAppend(a[1..], b);
    }
  }

  lemma {:induction false} NoBreakSame(a: File)
    requires '\n' !in a
    ensures Windows(a) == a
  {
    if a != [] {
      NoBreakSame(a[1..]);
      assert a == [a[0]] + a[1..];
    }
  }

  /** Where the position `pos` of `f` is in the Windows file. */
  function Moved(f: File, pos: nat): nat
    requires pos <= |f|
  {
    |Windows(f[..pos])|
  }

  /** The line at `pos` cut out of the Windows file. */
  lemma {:induction false} Pieces(f: File, pos: nat)
    requires pos < |f|
    ensures var e := LineEnd(f, pos); var line := f[pos..e];
      && '\n' !in line && Windows(f) == Windows(f[..pos]) + line + Windows(f[e..])
      && Moved(f, e) == Moved(f, pos) + |line|
  {
    var e := LineEnd(f, pos);
    var head, line, rest := f[..pos], f[pos..e], f[e..];
    assert '\n' !in line by {
      assert forall i :: 0 <= i < |line| ==> line[i] == f[pos + i];
    }
    hide LineEnd;
    NoBreakSame(line);
    assert f == head + line + rest && f[..e] == head + line;
    WindowsAppend(head + line, rest);
    WindowsAppend(head, line);
  }

  lemma {:induction false} BreakPiece(f: File, e: nat)
    requires e < |f| && f[e] == '\n'
    ensures Windows(f[e..]) == ['\r', '\n'] + Windows(f[e + 1..])
    ensures Moved(f, e + 1) == Moved(f, e) + 2
  {
    assert f[e..] == [f[e]] + f[e + 1..] && f[e..][1..] == f[e + 1..];
    assert f[..e + 1] == f[..e] + ['\n'];
    WindowsAppend(f[..e], ['\n']);
    assert Windows(['\n']) == ['\r', '\n'] + Windows([]);
  }

  /** The line at `pos` is found at the moved position with one more byte at its end, and the
      next line at the moved next position. */
  lemma {:induction false} MovedLine(f: File, pos: nat)
    requires pos < |f| && '\r' !in f
    ensures var w, p, e := Windows(f), Moved(f, pos), LineEnd(f, pos);
      && p < |w| && StripCR(w[p..LineEnd(w, p)]) == StripCR(f[pos..e])
      && NextStart(w, p) == Moved(f, NextStart(f, pos))
  {
    var e := LineEnd(f, pos);
    var head, line := Windows(f[..pos]), f[pos..e];
    var w := Windows(f);
    Pieces(f, pos);
    assert line == [] || line[|line| - 1] != '\r' by {
      assert line != [] ==> line[|line| - 1] in f;
    }
    assert StripCR(line) == line;
    assert NextStart(f, pos) == if e < |f| then e + 1 else |f|;
    if e == |f| {
      assert f[e..] == [] && Windows(f[e..]) == [] && f[..e] == f;
      hide Windows;
      MovedLast(head, line, w);
    } else {
      BreakPiece(f, e);
      hide Windows;
      MovedInner(head, line, Windows(f[e + 1..]), w);
    }
  }

  lemma {:induction false} MovedLast(head: File, line: Line, w: File)
    requires w == head + line && line != [] && '\n' !in line && line[|line| - 1] != '\r'
    ensures LineEnd(w, |head|) == |w| && StripCR(w[|head|..LineEnd(w, |head|)]) == line
    ensures NextStart(w, |head|) == |w|
  {
    assert forall i :: |head| <= i < |w| ==> w[i] == line[i - |head|];
    LineEndIs(w, |head|, |w|);
    assert w[|head|..] == line;
  }

  lemma {:induction false} MovedInner(head: File, line: Line, tail: File, w: File)
    requires w == head + line + (['\r', '\n'] + tail) && '\n' !in line
    ensures LineEnd(w, |head|) == |head| + |line| + 1
    ensures StripCR(w[|head|..LineEnd(w, |head|)]) == line
    ensures NextStart(w, |head|) == |head| + |line| + 2
  {
    var e := |head| + |line| + 1;
    assert forall i :: |head| <= i < e - 1 ==> w[i] == line[i - |head|];
    assert w[e - 1] == '\r' && w[e] == '\n';
    LineEndIs(w, |head|, e);
    assert w[|head|..e] == line + ['\r'];
    assert (line + ['\r'])[..|line|] == line;
  }

  lemma {:induction false} SameFrom(f: File, pos: nat)
    requires pos <= |f| && '\r' !in f
    ensures Moved(f, pos) <= |Windows(f)|
    ensures LinesUpTo(Windows(f), Moved(f, pos), |Windows(f)|) == LinesUpTo(f, pos, |f|)
    decreases |f| - pos
  {
    var w, p := Windows(f), Moved(f, pos);
    if pos == |f| {
      assert f[..pos] == f;
    } else {
      MovedLine(f, pos);
      SameFrom(f, NextStart(f, pos));
      Peeled(f, pos, |f|);
      Peeled(w, p, |w|);
    }
  }

  /** A file with Windows line breaks delivers the same lines as the file without them. */
  lemma {:induction false} SameOnWindows(f: File, skipFirst: bool)
    requires '\r' !in f
    ensures FileLines(Windows(f), skipFirst) == FileLines(f, skipFirst)
  {
    SameFrom(f, 0);
    assert f[..0] == [];
  }
}
