/** `line_parser::for_all`: files are cut into byte ranges with a budget for every rank, and
    a rank reads the lines that start inside its ranges.  However the cuts fall, the ranks
    together pass on exactly the lines of a sequential read of each file. */
module LineParser {
  import opened Arithmetic
  import opened Sorting

  type File = string
  type Line = string

  // ----- reading lines -----

  /** The first line break at or after `pos`, or the end of the file. */
  function LineEnd(f: File, pos: nat): (e: nat)
    requires pos <= |f|
    ensures pos <= e <= |f|
    ensures e < |f| ==> f[e] == '\n'
    ensures forall i :: pos <= i < e ==> f[i] != '\n'
    decreases |f| - pos
  {
    if pos == |f| || f[pos] == '\n' then pos else LineEnd(f, pos + 1)
  }

  /** Where the line after the one at `pos` starts. */
  function NextStart(f: File, pos: nat): (n: nat)
    requires pos <= |f|
    ensures pos <= n <= |f| && (pos < |f| ==> pos < n)
  {
    if LineEnd(f, pos) < |f| then LineEnd(f, pos) + 1 else |f|
  }

  /** A file edited on Windows leaves a carriage return at the end of its lines. */
  function StripCR(line: Line): Line {
    if line != [] && line[|line| - 1] == '\r' then line[..|line| - 1] else line
  }

  /** The lines that start between `pos` and `limit`, where `pos` starts a line. */
  function LinesUpTo(f: File, pos: nat, limit: nat): seq<Line>
    requires pos <= |f|
    decreases |f| - pos
  {
    if pos == |f| || pos > limit then []
    else [StripCR(f[pos..LineEnd(f, pos)])] + LinesUpTo(f, NextStart(f, pos), limit)
  }

  function DropFirst(lines: seq<Line>, drop: bool): seq<Line> {
    if drop && lines != [] then lines[1..] else lines
  }

  /** A sequential read of a whole file. */
  function FileLines(f: File, skipFirst: bool): seq<Line> {
    DropFirst(LinesUpTo(f, 0, |f|), skipFirst)
  }

  /** What the rank that is given the bytes from `begin` to `end` passes on. */
  function ChunkLines(f: File, begin: nat, end: nat, skipFirst: bool): seq<Line>
    requires begin <= |f|
  {
    if begin > 0 then LinesUpTo(f, NextStart(f, begin), end)
    else DropFirst(LinesUpTo(f, 0, end), skipFirst)
  }

  /** The input stream of the standard library as the reading loop uses it: once the end of
      the file has been met, asking for the position fails, and so does every read. */
  class InputStream {
    const file: File
    var pos: nat
    var eof: bool
    var failed: bool

    ghost predicate Valid()
      reads this
    {
      pos <= |file| && (eof || failed ==> pos == |file|)
    }

    constructor (file: File)
      ensures Valid() && this.file == file && pos == 0 && !eof && !failed
    {
      this.file, pos, eof, failed := file, 0, false, false;
    }

    method Seek(p: nat)
      requires Valid() && p <= |file| && !eof && !failed
      modifies this`pos
      ensures Valid() && pos == p
    {
      pos := p;
    }

    method Tell() returns (p: int)
      requires Valid()
      modifies this`failed
      ensures Valid() && failed == (old(failed) || eof)
      ensures p == if failed then -1 else pos
    {
      if eof || failed {
        failed := true;
        p := -1;
      } else {
        p := pos;
      }
    }

    method Getline() returns (ok: bool, line: Line)
      requires Valid()
      modifies this
      ensures Valid()
      ensures ok == (!old(eof) && !old(failed) && old(pos) < |file|)
      ensures ok ==> line == file[old(pos)..LineEnd(file, old(pos))] && pos == NextStart(file, old(pos)) && !failed
      ensures !ok ==> pos == |file|
    {
      ok, line := false, "";
      if eof || failed {
        failed := true;
        return;
      }
      while pos < |file| && file[pos] != '\n'
        invariant Valid() && !eof && !failed && old(pos) <= pos
        invariant line == file[old(pos)..pos] && LineEnd(file, pos) == LineEnd(file, old(pos))
        invariant !ok
        decreases |file| - pos
      {
        line := line + [file[pos]];
        pos := pos + 1;
      }
      if pos < |file| {
        pos, ok := pos + 1, true;
      } else {
        eof := true;
        ok := line != "";
        failed := !ok;
      }
    }
  }

  /** What the reading loop has still to pass on when it stands at `pos`. */
  ghost predicate StillToRead(lines: seq<Line>, f: File, pos: nat, limit: nat, drop: bool, all: seq<Line>)
    requires pos <= |f|
  {
    lines + DropFirst(LinesUpTo(f, pos, limit), drop) == all
  }

  lemma {:induction false} Peeled(f: File, pos: nat, limit: nat)
    requires pos < |f| && pos <= limit
    ensures LinesUpTo(f, pos, limit)
         == [StripCR(f[pos..LineEnd(f, pos)])] + LinesUpTo(f, NextStart(f, pos), limit)
  {
  }

  lemma {:induction false} MoveOver(lines: seq<Line>, line: Line, rest: seq<Line>)
    ensures lines + ([line] + rest) == (lines + [line]) + rest
    ensures ([line] + rest)[1..] == rest
  {
  }

  /** One turn of the reading loop peels one line off what is left. */
  lemma {:induction false} PeelLine(lines: seq<Line>, f: File, pos: nat, limit: nat, drop: bool, all: seq<Line>)
    requires pos < |f| && pos <= limit && StillToRead(lines, f, pos, limit, drop, all)
    ensures drop ==> StillToRead(lines, f, NextStart(f, pos), limit, false, all)
    ensures !drop ==>
      StillToRead(lines + [StripCR(f[pos..LineEnd(f, pos)])], f, NextStart(f, pos), limit, false, all)
  {
    var line, rest := StripCR(f[pos..LineEnd(f, pos)]), LinesUpTo(f, NextStart(f, pos), limit);
    Peeled(f, pos, limit);
    MoveOver(lines, line, rest);
  }

  lemma {:induction false} NothingLeft(lines: seq<Line>, f: File, pos: nat, limit: nat, drop: bool, all: seq<Line>)
    requires pos <= |f| && (pos == |f| || pos > limit) && StillToRead(lines, f, pos, limit, drop, all)
    ensures lines == all
  {
  }

  /** The reading loop: read until the line in which the chunk ends has been read. */
  method ReadLines(ifs: InputStream, end: nat, first: bool, skipFirst: bool) returns (lines: seq<Line>)
    requires ifs.Valid()
    modifies ifs
    ensures lines == DropFirst(LinesUpTo(ifs.file, old(ifs.pos), end), first && skipFirst)
  {
    lines := [];
    var firstLine := first;
    var reading := true;
    ghost var all := DropFirst(LinesUpTo(ifs.file, ifs.pos, end), first && skipFirst);
    assert StillToRead(lines, ifs.file, ifs.pos, end, first && skipFirst, all);
    hide StillToRead;
    hide LinesUpTo;
    hide DropFirst;
    while reading
      invariant ifs.Valid()
      invariant reading ==> StillToRead(lines, ifs.file, ifs.pos, end, firstLine && skipFirst, all)
      invariant !reading ==> lines == all
      decreases reading, |ifs.file| - ifs.pos
    {
      var at := ifs.Tell();
      if at > end {
        NothingLeft(lines, ifs.file, ifs.pos, end, firstLine && skipFirst, all);
        reading := false;
      } else {
        ghost var p := ifs.pos;
        var ok, line := ifs.Getline();
        if ok {
          PeelLine(lines, ifs.file, p, end, firstLine && skipFirst, all);
          ghost var whole := line;
          if line != "" && line[|line| - 1] == '\r' {
            line := line[..|line| - 1];
          }
          assert line == StripCR(whole);
          if !firstLine || !skipFirst {
            lines := lines + [line];
          }
          firstLine := false;
        } else {
          assert p == |ifs.file|;
          NothingLeft(lines, ifs.file, ifs.pos, end, firstLine && skipFirst, all);
          reading := false;
        }
      }
    }
  }

  /** A chunk: skip the line in which it begins, unless it begins the file, then read. */
  method ReadChunk(f: File, begin: nat, end: nat, skipFirst: bool) returns (lines: seq<Line>)
    requires begin <= |f|
    ensures lines == ChunkLines(f, begin, end, skipFirst)
  {
    var ifs := new InputStream(f);
    var firstLine := false;
    if begin > 0 {
      ifs.Seek(begin);
      var ok, line := ifs.Getline();
    } else {
      firstLine := true;
    }
    lines := ReadLines(ifs, end, firstLine, skipFirst);
  }

  // ----- chunks put together -----

  lemma {:induction false} NoLines(f: File, pos: nat, limit: nat)
    requires pos <= |f| && pos > limit
    ensures LinesUpTo(f, pos, limit) == []
  {
  }

  lemma {:induction false} SameLine(f: File, pos: nat, cut: nat)
    requires pos <= cut < |f| && NextStart(f, pos) > cut
    ensures NextStart(f, cut) == NextStart(f, pos)
  {
    hide LineEnd;
    assert !(LineEnd(f, cut) < LineEnd(f, pos));
    assert !(LineEnd(f, pos) < LineEnd(f, cut));
  }

  /** The line that contains a cut belongs to the chunk before the cut. */
  lemma {:induction false} CutLines(f: File, pos: nat, cut: nat, end: nat)
    requires pos <= cut < |f| && cut <= end
    ensures LinesUpTo(f, pos, end) == LinesUpTo(f, pos, cut) + LinesUpTo(f, NextStart(f, cut), end)
    decreases |f| - pos
  {
    var line, next := StripCR(f[pos..LineEnd(f, pos)]), NextStart(f, pos);
    Peeled(f, pos, end);
    Peeled(f, pos, cut);
    hide LinesUpTo;
    if next > cut {
      NoLines(f, next, cut);
      SameLine(f, pos, cut);
    } else {
      CutLines(f, next, cut, end);
      assert [line] + (LinesUpTo(f, next, cut) + LinesUpTo(f, NextStart(f, cut), end))
          == [line] + LinesUpTo(f, next, cut) + LinesUpTo(f, NextStart(f, cut), end);
    }
  }

  /** Byte ranges that follow each other from 0 to `pos`. */
  predicate Tiles(chunks: seq<(nat, nat)>, pos: nat) {
    if chunks == [] then pos == 0
    else
      var (begin, end) := chunks[|chunks| - 1];
      begin <= end == pos && (|chunks| > 1 ==> begin > 0) && Tiles(chunks[..|chunks| - 1], begin)
  }

  function LinesOfChunks(f: File, chunks: seq<(nat, nat)>, skipFirst: bool): seq<Line> {
    if chunks == [] then []
    else
      var (begin, end) := chunks[|chunks| - 1];
      LinesOfChunks(f, chunks[..|chunks| - 1], skipFirst) +
      if begin <= |f| then ChunkLines(f, begin, end, skipFirst) else []
  }

  /** The next chunk delivers what starts after the cut. */
  lemma {:induction false} NextChunk(f: File, cut: nat, end: nat, skipFirst: bool)
    requires 0 < cut < |f| && cut <= end
    ensures DropFirst(LinesUpTo(f, 0, cut), skipFirst) + ChunkLines(f, cut, end, skipFirst)
         == DropFirst(LinesUpTo(f, 0, end), skipFirst)
  {
    CutLines(f, 0, cut, end);
    var upTo, rest := LinesUpTo(f, 0, cut), LinesUpTo(f, NextStart(f, cut), end);
    assert upTo != [];
    assert (upTo + rest)[1..] == upTo[1..] + rest;
  }

  /** Chunks that tile a file up to `pos` deliver, in order, the lines that start there. */
  lemma {:induction false} TilesDeliver(f: File, chunks: seq<(nat, nat)>, pos: nat, skipFirst: bool)
    requires Tiles(chunks, pos) && chunks != [] && pos <= |f|
    requires forall i :: 0 < i < |chunks| ==> chunks[i].0 < |f|
    ensures LinesOfChunks(f, chunks, skipFirst) == DropFirst(LinesUpTo(f, 0, pos), skipFirst)
  {
    var (begin, end) := chunks[|chunks| - 1];
    var before := chunks[..|chunks| - 1];
    if before == [] {
      assert begin == 0;
    } else {
      assert 0 < begin < |f| && begin <= end == pos;
      TilesDeliver(f, before, begin, skipFirst);
      NextChunk(f, begin, end, skipFirst);
    }
  }

  lemma {:induction false} EmptyFileDelivers(f: File, chunks: seq<(nat, nat)>, skipFirst: bool)
    requires f == []
    ensures LinesOfChunks(f, chunks, skipFirst) == []
  {
    if chunks != [] {
      EmptyFileDelivers(f, chunks[..|chunks| - 1], skipFirst);
    }
  }

  // ----- the schedule -----

  datatype Task = Task(rank: nat, file: nat, begin: nat, end: nat)

  function ChunksOf(tasks: seq<Task>, file: nat): seq<(nat, nat)> {
    if tasks == [] then []
    else
      var t := tasks[|tasks| - 1];
      ChunksOf(tasks[..|tasks| - 1], file) + if t.file == file then [(t.begin, t.end)] else []
  }

  /** The chunks of a file tile it up to `pos`, and no chunk but the first starts at its end. */
  predicate CutTo(chunks: seq<(nat, nat)>, pos: nat, size: nat) {
    && Tiles(chunks, pos) && pos <= size
    && forall i :: 0 < i < |chunks| ==> chunks[i].0 < size
  }

  predicate InsideFile(files: seq<File>, t: Task) {
    t.file < |files| && t.begin <= t.end <= |files[t.file]|
  }

  /** What the schedule promises: every file is cut from its beginning to its end. */
  predicate Assigned(files: seq<File>, tasks: seq<Task>) {
    && (forall i :: 0 <= i < |tasks| ==> InsideFile(files, tasks[i]))
    && (forall i :: 0 <= i < |files| ==> CutTo(ChunksOf(tasks, i), |files[i]|, |files[i]|))
  }

  lemma {:induction false} ChunksOfAppend(tasks: seq<Task>, t: Task, file: nat)
    ensures t.file == file ==> ChunksOf(tasks + [t], file) == ChunksOf(tasks, file) + [(t.begin, t.end)]
    ensures t.file != file ==> ChunksOf(tasks + [t], file) == ChunksOf(tasks, file)
  {
    assert (tasks + [t])[..|tasks|] == tasks;
  }

  function TotalSize(files: seq<File>): nat {
    if files == [] then 0 else TotalSize(files[..|files| - 1]) + |files[|files| - 1]|
  }

  function Max(a: nat, b: nat): nat {
    if a > b then a else b
  }

  /** `bytes_per_rank`. */
  function Budget(total: nat, ranks: nat, minChunk: nat): nat
    requires ranks > 0
  {
    Max(total / ranks + 1, minChunk)
  }

  lemma {:induction false} BudgetSuffices(total: nat, ranks: nat, perRank: nat)
    requires ranks > 0 && perRank >= total / ranks + 1
    ensures perRank * ranks > total
  {
    assert total == (total / ranks) * ranks + total % ranks;
    assert perRank * ranks >= (total / ranks + 1) * ranks by {
    }
  }

  lemma {:induction false} PrefixSize(files: seq<File>, n: nat)
    requires n < |files|
    ensures TotalSize(files[..n + 1]) == TotalSize(files[..n]) + |files[n]|
  {
    assert files[..n + 1][..n] == files[..n];
  }

  lemma {:induction false} NothingToSplit(files: seq<File>, i: nat)
    requires i < |files| && TotalSize(files) == 0
    ensures files[i] == []
  {
    if i < |files| - 1 {
      NothingToSplit(files[..|files| - 1], i);
    }
  }

  /** A file of which the bytes before `begin` have been handed out. */
  datatype Remaining = Remaining(file: nat, begin: nat, size: nat)

  ghost predicate ListsFiles(files: seq<File>, remaining: seq<Remaining>) {
    && |remaining| <= |files|
    && (forall i :: 0 <= i < |remaining| ==> remaining[i].file == i && remaining[i].size == |files[i]|)
    && (forall i :: 0 <= i < |remaining| - 1 ==> remaining[i].begin == 0)
  }

  /** The chunks of file `i` when the files of `remaining` are still to be finished. */
  ghost predicate FileProgress(files: seq<File>, remaining: seq<Remaining>, tasks: seq<Task>, i: nat)
    requires i < |files|
  {
    if i >= |remaining| then CutTo(ChunksOf(tasks, i), |files[i]|, |files[i]|)
    else
      && CutTo(ChunksOf(tasks, i), remaining[i].begin, |files[i]|)
      && (ChunksOf(tasks, i) != [] ==> 0 < remaining[i].begin < |files[i]|)
  }

  ghost predicate Progress(files: seq<File>, remaining: seq<Remaining>, tasks: seq<Task>, ranks: nat) {
    && ListsFiles(files, remaining)
    && (forall i :: 0 <= i < |tasks| ==> InsideFile(files, tasks[i]) && tasks[i].rank < ranks)
    && (forall i :: 0 <= i < |files| ==> FileProgress(files, remaining, tasks, i))
  }

  /** Handing out more of the last file keeps the books. */
  lemma {:induction false} HandOut(files: seq<File>, remaining: seq<Remaining>, tasks: seq<Task>, ranks: nat,
                                   rank: nat, end: nat, remaining': seq<Remaining>)
    requires Progress(files, remaining, tasks, ranks) && rank < ranks && remaining != []
    requires var last := remaining[|remaining| - 1];
      || (last.begin < end < last.size && remaining' == remaining[|remaining| - 1 := last.(begin := end)])
      || (last.begin <= end == last.size && remaining' == remaining[..|remaining| - 1])
    ensures Progress(files, remaining',
                     tasks + [Task(rank, |remaining| - 1, remaining[|remaining| - 1].begin, end)], ranks)
  {
    var n := |remaining| - 1;
    var t := Task(rank, n, remaining[n].begin, end);
    forall i | 0 <= i < |files|
      ensures FileProgress(files, remaining', tasks + [t], i)
    {
      assert FileProgress(files, remaining, tasks, i);
      ChunksOfAppend(tasks, t, i);
    }
  }

  function BytesLeft(remaining: seq<Remaining>): int {
    if remaining == [] then 0
    else
      var last := remaining[|remaining| - 1];
      BytesLeft(remaining[..|remaining| - 1]) + last.size - last.begin
  }

  lemma {:induction false} BytesLeftOfFiles(files: seq<File>, remaining: seq<Remaining>)
    requires ListsFiles(files, remaining) && remaining != []
    requires remaining[|remaining| - 1].begin <= remaining[|remaining| - 1].size
    ensures BytesLeft(remaining) >= 0
  {
    var before := remaining[..|remaining| - 1];
    if before != [] {
      BytesLeftOfFiles(files, before);
    }
  }

  /** The list of files and their total size, as the first loop builds them. */
  method ListFiles(files: seq<File>) returns (remaining: seq<Remaining>, total: nat)
    ensures total == TotalSize(files) == BytesLeft(remaining)
    ensures |remaining| == |files|
    ensures forall i :: 0 <= i < |files| ==> remaining[i] == Remaining(i, 0, |files[i]|)
  {
    remaining, total := [], 0;
    var i := 0;
    while i < |files|
      invariant 0 <= i <= |files| && |remaining| == i
      invariant forall j :: 0 <= j < i ==> remaining[j] == Remaining(j, 0, |files[j]|)
      invariant total == TotalSize(files[..i]) == BytesLeft(remaining)
    {
      PrefixSize(files, i);
      ghost var was := remaining;
      remaining := remaining + [Remaining(i, 0, |files[i]|)];
      assert remaining[..i] == was;
      total := total + |files[i]|;
      i := i + 1;
    }
    assert files[..i] == files;
  }

  /** The bytes that rank `r` is to read. */
  function BytesOf(tasks: seq<Task>, r: nat): int {
    if tasks == [] then 0
    else
      var t := tasks[|tasks| - 1];
      BytesOf(tasks[..|tasks| - 1], r) + if t.rank == r then t.end - t.begin else 0
  }

  lemma {:induction false} BytesOfMore(tasks: seq<Task>, t: Task, r: nat)
    ensures BytesOf(tasks + [t], r) == BytesOf(tasks, r) + if t.rank == r then t.end - t.begin else 0
  {
    assert (tasks + [t])[..|tasks|] == tasks;
  }

  /** From `tasks` to `tasks'`, `rank` was given `bytes` more and no other rank anything. */
  ghost predicate Given(tasks: seq<Task>, tasks': seq<Task>, rank: nat, bytes: int) {
    forall r: nat :: BytesOf(tasks', r) == BytesOf(tasks, r) + if r == rank then bytes else 0
  }

  lemma {:induction false} GivenMore(tasks: seq<Task>, tasks': seq<Task>, rank: nat, bytes: int, t: Task)
    requires Given(tasks, tasks', rank, bytes) && t.rank == rank
    ensures Given(tasks, tasks' + [t], rank, bytes + (t.end - t.begin))
  {
    forall r: nat
      ensures BytesOf(tasks' + [t], r) == BytesOf(tasks, r) + if r == rank then bytes + (t.end - t.begin) else 0
    {
      BytesOfMore(tasks', t, r);
    }
  }

  function Excess(a: int, b: int): int {
    if a > b then a - b else 0
  }

  /** The inner loop of the scheduler: one rank gets bytes from the back of the list until its
      budget is spent or nothing is left. */
  method FillRank(files: seq<File>, remaining: seq<Remaining>, tasks: seq<Task>, rank: nat, ranks: nat,
                  bytesPerRank: nat)
    returns (remaining': seq<Remaining>, tasks': seq<Task>)
    requires rank < ranks && Progress(files, remaining, tasks, ranks)
    ensures Progress(files, remaining', tasks', ranks)
    ensures BytesLeft(remaining') == Excess(BytesLeft(remaining), bytesPerRank)
    ensures Given(tasks, tasks', rank, BytesLeft(remaining) - BytesLeft(remaining'))
    ensures remaining' != [] ==> remaining != [] && BytesLeft(remaining') + bytesPerRank == BytesLeft(remaining)
  {
    remaining', tasks' := remaining, tasks;
    var budget := bytesPerRank;
    while budget > 0 && remaining' != []
      invariant 0 <= budget <= bytesPerRank
      invariant Progress(files, remaining', tasks', ranks)
      invariant remaining' != [] ==> remaining != []
      invariant BytesLeft(remaining') + (bytesPerRank - budget) == BytesLeft(remaining)
      invariant Given(tasks, tasks', rank, bytesPerRank - budget)
      decreases |remaining'|, budget
    {
      hide Given;
      var last := remaining'[|remaining'| - 1];
      assert FileProgress(files, remaining', tasks', |remaining'| - 1);
      var fileRemaining := last.size - last.begin;
      if fileRemaining > budget {
        var rest := remaining'[|remaining'| - 1 := last.(begin := last.begin + budget)];
        HandOut(files, remaining', tasks', ranks, rank, last.begin + budget, rest);
        GivenMore(tasks, tasks', rank, bytesPerRank - budget, Task(rank, last.file, last.begin, last.begin + budget));
        tasks' := tasks' + [Task(rank, last.file, last.begin, last.begin + budget)];
        remaining' := rest;
        budget := 0;
      } else {
        HandOut(files, remaining', tasks', ranks, rank, last.size, remaining'[..|remaining'| - 1]);
        GivenMore(tasks, tasks', rank, bytesPerRank - budget, Task(rank, last.file, last.begin, last.size));
        tasks' := tasks' + [Task(rank, last.file, last.begin, last.size)];
        budget := budget - fileRemaining;
        remaining' := remaining'[..|remaining'| - 1];
      }
    }
    if remaining' != [] {
      assert FileProgress(files, remaining', tasks', |remaining'| - 1);
      BytesLeftOfFiles(files, remaining');
    }
  }

  /** The bytes of rank `r` when every rank in turn takes as much as it may. */
  function Share(total: nat, perRank: nat, r: nat): nat {
    if total <= perRank * r then 0
    else if total < perRank * (r + 1) then total - perRank * r
    else perRank
  }

  /** No rank gets more than the larger of its even share and the smallest chunk, and a rank gets
      something only after the one before has been filled. */
  lemma {:induction false} SharesAreEven(total: nat, ranks: nat, minChunk: nat, r: nat)
    requires ranks > 0
    ensures var share := Share(total, Budget(total, ranks, minChunk), r);
      && (share <= total / ranks + 1 || share <= minChunk)
      && (Share(total, Budget(total, ranks, minChunk), r + 1) > 0 ==> share > total / ranks && share >= minChunk)
  {
  }

  /** The ranks below `rank` have been given their shares, the others nothing. */
  ghost predicate Dealt(tasks: seq<Task>, total: nat, perRank: nat, rank: nat) {
    forall r: nat :: BytesOf(tasks, r) == if r < rank then Share(total, perRank, r) else 0
  }

  lemma {:induction false} DealtOne(tasks: seq<Task>, tasks': seq<Task>, total: nat, perRank: nat, rank: nat)
    requires Dealt(tasks, total, perRank, rank)
    requires Given(tasks, tasks', rank, Excess(total, perRank * rank) - Excess(total, perRank * (rank + 1)))
    ensures Dealt(tasks', total, perRank, rank + 1)
  {
    TimesNext(perRank, rank);
    assert Share(total, perRank, rank) == Excess(total, perRank * rank) - Excess(total, perRank * (rank + 1));
    hide Share;
  }

  /** The scheduler: every rank in turn is given its budget.  All of every file is handed out. */
  method AssignChunks(files: seq<File>, ranks: nat, minChunk: nat) returns (tasks: seq<Task>)
    requires ranks > 0
    ensures Assigned(files, tasks)
    ensures forall i :: 0 <= i < |tasks| ==> tasks[i].rank < ranks
    ensures forall r: nat :: r < ranks ==>
      BytesOf(tasks, r) == Share(TotalSize(files), Budget(TotalSize(files), ranks, minChunk), r)
  {
    tasks := [];
    var remaining, total := ListFiles(files);
    assert Dealt(tasks, total, Budget(total, ranks, minChunk), 0);
    assert total == 0 ==> forall r: nat :: BytesOf(tasks, r) == Share(total, Budget(total, ranks, minChunk), r);
    assert total > 0 ==> Progress(files, remaining, tasks, ranks);
    if total > 0 {
      var bytesPerRank := Budget(total, ranks, minChunk);
      BudgetSuffices(total, ranks, bytesPerRank);
      hide Budget;
      hide Given;
      hide Dealt;
      hide Progress;
      ghost var spent := 0;
      var rank := 0;
      while rank < ranks
        invariant 0 <= rank <= ranks && spent == bytesPerRank * rank
        invariant Progress(files, remaining, tasks, ranks)
        invariant remaining != [] ==> BytesLeft(remaining) + spent == total
        invariant BytesLeft(remaining) == Excess(total, spent)
        invariant Dealt(tasks, total, bytesPerRank, rank)
      {
        ghost var before := tasks;
        remaining, tasks := FillRank(files, remaining, tasks, rank, ranks, bytesPerRank);
        TimesNext(bytesPerRank, rank);
        DealtOne(before, tasks, total, bytesPerRank, rank);
        spent := spent + bytesPerRank;
        rank := rank + 1;
      }
      Exhausted(files, remaining, tasks, ranks, total, bytesPerRank);
      AllDealt(tasks, total, bytesPerRank, ranks);
    } else {
      forall i | 0 <= i < |files|
        ensures CutTo(ChunksOf(tasks, i), |files[i]|, |files[i]|)
      {
        NothingToSplit(files, i);
      }
    }
  }

  lemma {:induction false} AllDealt(tasks: seq<Task>, total: nat, perRank: nat, ranks: nat)
    requires Dealt(tasks, total, perRank, ranks)
    ensures forall r: nat :: r < ranks ==> BytesOf(tasks, r) == Share(total, perRank, r)
  {
  }

  lemma {:induction false} Exhausted(files: seq<File>, remaining: seq<Remaining>, tasks: seq<Task>, ranks: nat,
                                     total: nat, perRank: nat)
    requires Progress(files, remaining, tasks, ranks) && perRank * ranks > total
    requires remaining != [] ==> BytesLeft(remaining) + perRank * ranks == total
    ensures remaining == [] && Assigned(files, tasks)
  {
    if remaining != [] {
      assert FileProgress(files, remaining, tasks, |remaining| - 1);
      BytesLeftOfFiles(files, remaining);
      assert false;
    }
    forall i | 0 <= i < |files|
      ensures CutTo(ChunksOf(tasks, i), |files[i]|, |files[i]|)
    {
      assert FileProgress(files, remaining, tasks, i);
    }
  }

  // ----- every line once -----

  /** How often a line occurs in several lists together. */
  function Occurrences(lists: seq<seq<Line>>, x: Line): nat {
    if lists == [] then 0 else Occurrences(lists[..|lists| - 1], x) + Count(lists[|lists| - 1], x)
  }

  function TaskLines(files: seq<File>, t: Task, skipFirst: bool): seq<Line> {
    if t.file < |files| && t.begin <= |files[t.file]| then ChunkLines(files[t.file], t.begin, t.end, skipFirst) else []
  }

  /** The lines one rank passes on, in the order in which its chunks arrived. */
  function RankLines(files: seq<File>, tasks: seq<Task>, rank: nat, skipFirst: bool): seq<Line> {
    if tasks == [] then []
    else
      var t := tasks[|tasks| - 1];
      RankLines(files, tasks[..|tasks| - 1], rank, skipFirst) +
      if t.rank == rank then TaskLines(files, t, skipFirst) else []
  }

  function RankLists(files: seq<File>, tasks: seq<Task>, ranks: nat, skipFirst: bool): seq<seq<Line>>
  {
    if ranks == 0 then []
    else RankLists(files, tasks, ranks - 1, skipFirst) + [RankLines(files, tasks, ranks - 1, skipFirst)]
  }

  /** The sequential reads of all files. */
  function FileLists(files: seq<File>, skipFirst: bool): seq<seq<Line>>
  {
    if files == [] then []
    else FileLists(files[..|files| - 1], skipFirst) + [FileLines(files[|files| - 1], skipFirst)]
  }

  function TaskOccurrences(files: seq<File>, tasks: seq<Task>, skipFirst: bool, x: Line): nat {
    if tasks == [] then 0
    else
      TaskOccurrences(files, tasks[..|tasks| - 1], skipFirst, x) +
      Count(TaskLines(files, tasks[|tasks| - 1], skipFirst), x)
  }

  function Sum(g: nat -> nat, n: nat): nat {
    if n == 0 then 0 else Sum(g, n - 1) + g(n - 1)
  }

  lemma {:induction false} SumStep(g: nat -> nat, h: nat -> nat, n: nat, k: nat, c: nat)
    requires forall i: nat :: i < n ==> g(i) == h(i) + if i == k then c else 0
    ensures Sum(g, n) == Sum(h, n) + if k < n then c else 0
  {
    if n > 0 {
      SumStep(g, h, n - 1, k, c);
    }
  }

  function RankCount(files: seq<File>, tasks: seq<Task>, skipFirst: bool, x: Line): nat -> nat {
    (r: nat) => Count(RankLines(files, tasks, r, skipFirst), x)
  }

  lemma {:induction false} RankListsSum(files: seq<File>, tasks: seq<Task>, ranks: nat, skipFirst: bool, x: Line)
    ensures Occurrences(RankLists(files, tasks, ranks, skipFirst), x)
         == Sum(RankCount(files, tasks, skipFirst, x), ranks)
  {
    if ranks > 0 {
      RankListsSum(files, tasks, ranks - 1, skipFirst, x);
    }
  }

  lemma {:induction false} OneRankStep(files: seq<File>, tasks: seq<Task>, r: nat, skipFirst: bool, x: Line)
    requires tasks != []
    ensures Count(RankLines(files, tasks, r, skipFirst), x)
         == Count(RankLines(files, tasks[..|tasks| - 1], r, skipFirst), x)
            + if tasks[|tasks| - 1].rank == r then Count(TaskLines(files, tasks[|tasks| - 1], skipFirst), x) else 0
  {
    var before, t := tasks[..|tasks| - 1], tasks[|tasks| - 1];
    var lines := if t.rank == r then TaskLines(files, t, skipFirst) else [];
    assert RankLines(files, tasks, r, skipFirst) == RankLines(files, before, r, skipFirst) + lines;
    CountAppend(RankLines(files, before, r, skipFirst), lines, x);
  }

  /** One more chunk adds its lines to the rank that reads it. */
  lemma {:induction false} ByRankStep(files: seq<File>, tasks: seq<Task>, ranks: nat, skipFirst: bool, x: Line)
    requires tasks != [] && tasks[|tasks| - 1].rank < ranks
    ensures Sum(RankCount(files, tasks, skipFirst, x), ranks)
         == Sum(RankCount(files, tasks[..|tasks| - 1], skipFirst, x), ranks)
            + Count(TaskLines(files, tasks[|tasks| - 1], skipFirst), x)
  {
    var before, t := tasks[..|tasks| - 1], tasks[|tasks| - 1];
    var g, h := RankCount(files, tasks, skipFirst, x), RankCount(files, before, skipFirst, x);
    var c := Count(TaskLines(files, t, skipFirst), x);
    forall r: nat | r < ranks
      ensures g(r) == h(r) + if r == t.rank then c else 0
    {
      OneRankStep(files, tasks, r, skipFirst, x);
    }
    SumStep(g, h, ranks, t.rank, c);
  }

  lemma {:induction false} ByRank(files: seq<File>, tasks: seq<Task>, ranks: nat, skipFirst: bool, x: Line)
    requires forall i :: 0 <= i < |tasks| ==> tasks[i].rank < ranks
    ensures Sum(RankCount(files, tasks, skipFirst, x), ranks) == TaskOccurrences(files, tasks, skipFirst, x)
  {
    if tasks == [] {
      NoTasks(files, ranks, skipFirst, x);
    } else {
      ByRankStep(files, tasks, ranks, skipFirst, x);
      ByRank(files, tasks[..|tasks| - 1], ranks, skipFirst, x);
    }
  }

  lemma {:induction false} NoTasks(files: seq<File>, ranks: nat, skipFirst: bool, x: Line)
    ensures Sum(RankCount(files, [], skipFirst, x), ranks) == 0
  {
    if ranks > 0 {
      NoTasks(files, ranks - 1, skipFirst, x);
    }
  }

  /** What the chunks of a file deliver. */
  function FileCount(files: seq<File>, tasks: seq<Task>, skipFirst: bool, x: Line): nat -> nat {
    (i: nat) => if i < |files| then Count(LinesOfChunks(files[i], ChunksOf(tasks, i), skipFirst), x) else 0
  }

  /** What the chunks of the first `n` files deliver together. */
  function ByFile(files: seq<File>, tasks: seq<Task>, n: nat, skipFirst: bool, x: Line): nat {
    Sum(FileCount(files, tasks, skipFirst, x), n)
  }

  /** One more chunk adds its lines to what its file delivers. */
  lemma {:induction false} OneFileStep(files: seq<File>, tasks: seq<Task>, file: nat, skipFirst: bool, x: Line)
    requires tasks != [] && file < |files|
    ensures Count(LinesOfChunks(files[file], ChunksOf(tasks, file), skipFirst), x)
         == Count(LinesOfChunks(files[file], ChunksOf(tasks[..|tasks| - 1], file), skipFirst), x)
            + if tasks[|tasks| - 1].file == file then Count(TaskLines(files, tasks[|tasks| - 1], skipFirst), x) else 0
  {
    var before, t := tasks[..|tasks| - 1], tasks[|tasks| - 1];
    var chunks := ChunksOf(before, file);
    assert tasks == before + [t];
    ChunksOfAppend(before, t, file);
    if t.file == file {
      assert (chunks + [(t.begin, t.end)])[..|chunks|] == chunks;
      CountAppend(LinesOfChunks(files[file], chunks, skipFirst), TaskLines(files, t, skipFirst), x);
    }
  }

  lemma {:induction false} ByFileStep(files: seq<File>, tasks: seq<Task>, skipFirst: bool, x: Line)
    requires tasks != [] && tasks[|tasks| - 1].file < |files|
    ensures ByFile(files, tasks, |files|, skipFirst, x)
         == ByFile(files, tasks[..|tasks| - 1], |files|, skipFirst, x)
            + Count(TaskLines(files, tasks[|tasks| - 1], skipFirst), x)
  {
    var before, t := tasks[..|tasks| - 1], tasks[|tasks| - 1];
    var g, h := FileCount(files, tasks, skipFirst, x), FileCount(files, before, skipFirst, x);
    var c := Count(TaskLines(files, t, skipFirst), x);
    forall i: nat | i < |files|
      ensures g(i) == h(i) + if i == t.file then c else 0
    {
      OneFileStep(files, tasks, i, skipFirst, x);
    }
    SumStep(g, h, |files|, t.file, c);
  }

  lemma {:induction false} ByFileNoTasks(files: seq<File>, n: nat, skipFirst: bool, x: Line)
    requires n <= |files|
    ensures ByFile(files, [], n, skipFirst, x) == 0
  {
    if n > 0 {
      ByFileNoTasks(files, n - 1, skipFirst, x);
    }
  }

  lemma {:induction false} ByFileAll(files: seq<File>, tasks: seq<Task>, skipFirst: bool, x: Line)
    requires forall i :: 0 <= i < |tasks| ==> tasks[i].file < |files|
    ensures ByFile(files, tasks, |files|, skipFirst, x) == TaskOccurrences(files, tasks, skipFirst, x)
  {
    if tasks == [] {
      ByFileNoTasks(files, |files|, skipFirst, x);
    } else {
      ByFileStep(files, tasks, skipFirst, x);
      ByFileAll(files, tasks[..|tasks| - 1], skipFirst, x);
    }
  }

  /** A file that is cut from end to end is read completely, and nothing of it twice. */
  lemma {:induction false} CutFileDelivers(f: File, chunks: seq<(nat, nat)>, skipFirst: bool)
    requires CutTo(chunks, |f|, |f|)
    ensures LinesOfChunks(f, chunks, skipFirst) == FileLines(f, skipFirst)
  {
    if f == [] {
      EmptyFileDelivers(f, chunks, skipFirst);
    } else {
      TilesDeliver(f, chunks, |f|, skipFirst);
    }
  }

  lemma {:induction false} OneMoreFile(files: seq<File>, n: nat, skipFirst: bool, x: Line)
    requires n < |files|
    ensures Occurrences(FileLists(files[..n + 1], skipFirst), x)
         == Occurrences(FileLists(files[..n], skipFirst), x) + Count(FileLines(files[n], skipFirst), x)
  {
    hide FileLines;
    hide Count;
    var before, last := FileLists(files[..n], skipFirst), FileLines(files[n], skipFirst);
    assert files[..n + 1][..n] == files[..n];
    assert FileLists(files[..n + 1], skipFirst) == before + [last];
    assert (before + [last])[..|before|] == before;
  }

  lemma {:induction false} ByFileMore(files: seq<File>, tasks: seq<Task>, n: nat, skipFirst: bool, x: Line)
    requires n < |files|
    ensures ByFile(files, tasks, n + 1, skipFirst, x)
         == ByFile(files, tasks, n, skipFirst, x)
            + Count(LinesOfChunks(files[n], ChunksOf(tasks, n), skipFirst), x)
  {
    hide Count;
    hide LinesOfChunks;
    hide ChunksOf;
  }

  lemma {:induction false} FilesAreDelivered(files: seq<File>, tasks: seq<Task>, n: nat, skipFirst: bool, x: Line)
    requires Assigned(files, tasks) && n <= |files|
    ensures ByFile(files, tasks, n, skipFirst, x) == Occurrences(FileLists(files[..n], skipFirst), x)
  {
    if n > 0 {
      FilesAreDelivered(files, tasks, n - 1, skipFirst, x);
      CutFileDelivers(files[n - 1], ChunksOf(tasks, n - 1), skipFirst);
      OneMoreFile(files, n - 1, skipFirst, x);
      ByFileMore(files, tasks, n - 1, skipFirst, x);
      hide *;
    } else {
      assert FileLists(files[..n], skipFirst) == [];
    }
  }

  /** Every line of every file is passed on exactly as often as the file holds it, whatever the
      sizes of the files, the number of ranks and the smallest chunk. */
  lemma {:induction false} EveryLineOnce(files: seq<File>, tasks: seq<Task>, ranks: nat, skipFirst: bool, x: Line)
    requires Assigned(files, tasks)
    requires forall i :: 0 <= i < |tasks| ==> tasks[i].rank < ranks
    ensures Occurrences(RankLists(files, tasks, ranks, skipFirst), x) == Occurrences(FileLists(files, skipFirst), x)
  {
    RankListsSum(files, tasks, ranks, skipFirst, x);
    ByRank(files, tasks, ranks, skipFirst, x);
    ByFileAll(files, tasks, skipFirst, x);
    FilesAreDelivered(files, tasks, |files|, skipFirst, x);
    assert files[..|files|] == files;
  }

  lemma {:induction false} EveryLine(files: seq<File>, tasks: seq<Task>, ranks: nat, skipFirst: bool)
    requires Assigned(files, tasks)
    requires forall i :: 0 <= i < |tasks| ==> tasks[i].rank < ranks
    ensures forall x ::
      Occurrences(RankLists(files, tasks, ranks, skipFirst), x) == Occurrences(FileLists(files, skipFirst), x)
  {
    forall x
      ensures Occurrences(RankLists(files, tasks, ranks, skipFirst), x) == Occurrences(FileLists(files, skipFirst), x)
    {
      EveryLineOnce(files, tasks, ranks, skipFirst, x);
    }
  }

  /** One rank reads its chunks in the order in which they were sent to it. */
  method ProcessChunks(files: seq<File>, tasks: seq<Task>, rank: nat, skipFirst: bool) returns (lines: seq<Line>)
    requires forall i :: 0 <= i < |tasks| ==> InsideFile(files, tasks[i])
    ensures lines == RankLines(files, tasks, rank, skipFirst)
  {
    lines := [];
    var i := 0;
    while i < |tasks|
      invariant 0 <= i <= |tasks|
      invariant lines == RankLines(files, tasks[..i], rank, skipFirst)
    {
      assert tasks[..i + 1][..i] == tasks[..i];
      if tasks[i].rank == rank {
        var more := ReadChunk(files[tasks[i].file], tasks[i].begin, tasks[i].end, skipFirst);
        lines := lines + more;
      }
      i := i + 1;
    }
    assert tasks[..i] == tasks;
  }

  /** The whole of `for_all`: schedule the files, then let every rank process its chunks. */
  method ForAll(files: seq<File>, ranks: nat, minChunk: nat, skipFirst: bool) returns (passed: seq<seq<Line>>)
    requires ranks > 0
    ensures |passed| == ranks
    ensures forall x :: Occurrences(passed, x) == Occurrences(FileLists(files, skipFirst), x)
  {
    var tasks := AssignChunks(files, ranks, minChunk);
    passed := [];
    var rank := 0;
    while rank < ranks
      invariant 0 <= rank <= ranks && |passed| == rank
      invariant passed == RankLists(files, tasks, rank, skipFirst)
    {
      var lines := ProcessChunks(files, tasks, rank, skipFirst);
      passed := passed + [lines];
      rank := rank + 1;
    }
    EveryLine(files, tasks, ranks, skipFirst);
  }
}
