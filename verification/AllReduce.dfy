/** `all_reduce`: every rank merges what its two children in the implicit heap of ranks send
    into its own value, sends the result to its parent, and rank 0 broadcasts.  Under every
    schedule the reduction finishes, with each rank's value merged exactly once. */
module AllReduce {
  import opened Sorting

  datatype Option<T> = None | Some(value: T)

  // ----- what is computed -----

  /** What rank `r` sends to its parent. */
  ghost function Tree<T>(input: seq<T>, merge: (T, T) -> T, r: nat): T
    requires r < |input|
    decreases |input| - r
  {
    if 2 * r + 2 < |input| then merge(WithFirst(input, merge, r), Tree(input, merge, 2 * r + 2))
    else WithFirst(input, merge, r)
  }

  ghost function WithFirst<T>(input: seq<T>, merge: (T, T) -> T, r: nat): T
    requires r < |input|
    decreases |input| - r, 0
  {
    if 2 * r + 1 < |input| then merge(input[r], Tree(input, merge, 2 * r + 1)) else input[r]
  }

  ghost predicate Associative<T(!new)>(merge: (T, T) -> T) {
    forall x, y, z :: merge(merge(x, y), z) == merge(x, merge(y, z))
  }

  ghost predicate Commutative<T(!new)>(merge: (T, T) -> T) {
    forall x, y :: merge(x, y) == merge(y, x)
  }

  /** The values of the ranks in `order`, merged one after the other. */
  ghost function Fold<T>(input: seq<T>, merge: (T, T) -> T, order: seq<nat>): T
    requires order != [] && forall i :: 0 <= i < |order| ==> order[i] < |input|
  {
    if |order| == 1 then input[order[0]] else merge(input[order[0]], Fold(input, merge, order[1..]))
  }

  function RankOrder(n: nat): (order: seq<nat>)
    ensures |order| == n && forall i :: 0 <= i < n ==> order[i] == i
  {
    seq(n, i requires 0 <= i < n => i)
  }

  // ----- the tree uses every rank once -----

  /** The ranks below `r` in the order in which their values are merged. */
  ghost function Order(n: nat, r: nat): (order: seq<nat>)
    requires r < n
    ensures order != [] && forall i :: 0 <= i < |order| ==> order[i] < n
    decreases n - r
  {
    [r] + (if 2 * r + 1 < n then Order(n, 2 * r + 1) else []) + (if 2 * r + 2 < n then Order(n, 2 * r + 2) else [])
  }

  /** `r` is met on the way from `x` to rank 0. */
  predicate Under(x: nat, r: nat) {
    x == r || (x > r && Under((x - 1) / 2, r))
  }

  lemma {:induction false} UnderRoot(x: nat)
    ensures Under(x, 0)
  {
    if x > 0 {
      UnderRoot((x - 1) / 2);
    }
  }

  lemma {:induction false} UnderOneChild(x: nat, r: nat)
    ensures Under(x, r) <==> x == r || Under(x, 2 * r + 1) || Under(x, 2 * r + 2)
    ensures !(Under(x, 2 * r + 1) && Under(x, 2 * r + 2))
    ensures !Under(r, 2 * r + 1) && !Under(r, 2 * r + 2)
  {
    if x > r {
      UnderOneChild((x - 1) / 2, r);
    }
  }

  lemma {:induction false} OrderCount(n: nat, r: nat, x: nat)
    requires r < n
    ensures Count(Order(n, r), x) == if x < n && Under(x, r) then 1 else 0
    decreases n - r
  {
    var first := if 2 * r + 1 < n then Order(n, 2 * r + 1) else [];
    var second := if 2 * r + 2 < n then Order(n, 2 * r + 2) else [];
    CountAppend([r] + first, second, x);
    CountAppend([r], first, x);
    assert [r][1..] == [];
    UnderOneChild(x, r);
    if 2 * r + 1 < n {
      OrderCount(n, 2 * r + 1, x);
    }
    if 2 * r + 2 < n {
      OrderCount(n, 2 * r + 2, x);
    }
  }

  lemma {:induction false} RankOrderCount(n: nat, x: nat)
    ensures Count(RankOrder(n), x) == if x < n then 1 else 0
  {
    if n > 0 {
      RankOrderCount(n - 1, x);
      var last: seq<nat> := [n - 1];
      assert RankOrder(n) == RankOrder(n - 1) + last;
      CountAppend(RankOrder(n - 1), last, x);
      assert last[1..] == [];
    } else {
      assert RankOrder(n) == [];
    }
  }

  /** The value of every rank is merged exactly once. */
  lemma {:induction false} EachRankOnce(n: nat)
    requires n > 0
    ensures SameElements(Order(n, 0), RankOrder(n))
  {
    forall x
      ensures Count(Order(n, 0), x) == Count(RankOrder(n), x)
    {
      OrderCount(n, 0, x);
      RankOrderCount(n, x);
      UnderRoot(x);
    }
  }

  // ----- folds -----

  lemma {:induction false} FoldAppend<T(!new)>(input: seq<T>, merge: (T, T) -> T, a: seq<nat>, b: seq<nat>)
    requires Associative(merge) && a != [] && b != []
    requires forall i :: 0 <= i < |a| ==> a[i] < |input|
    requires forall i :: 0 <= i < |b| ==> b[i] < |input|
    ensures Fold(input, merge, a + b) == merge(Fold(input, merge, a), Fold(input, merge, b))
  {
    assert (a + b)[1..] == a[1..] + b;
    if |a| > 1 {
      FoldAppend(input, merge, a[1..], b);
    } else {
      assert a[1..] + b == b;
    }
  }

  /** The order below a rank up to its first child. */
  ghost function FirstPart(n: nat, r: nat): (order: seq<nat>)
    requires r < n
    ensures order != [] && forall i :: 0 <= i < |order| ==> order[i] < n
  {
    [r] + if 2 * r + 1 < n then Order(n, 2 * r + 1) else []
  }

  lemma {:induction false} FirstIsFold<T(!new)>(input: seq<T>, merge: (T, T) -> T, r: nat)
    requires Associative(merge) && r < |input|
    ensures WithFirst(input, merge, r) == Fold(input, merge, FirstPart(|input|, r))
    decreases |input| - r, 0
  {
    if 2 * r + 1 < |input| {
      TreeIsFold(input, merge, 2 * r + 1);
      FoldAppend(input, merge, [r], Order(|input|, 2 * r + 1));
    } else {
      assert [r] + [] == [r];
    }
  }

  /** The tree is the fold of its own order. */
  lemma {:induction false} TreeIsFold<T(!new)>(input: seq<T>, merge: (T, T) -> T, r: nat)
    requires Associative(merge) && r < |input|
    ensures Tree(input, merge, r) == Fold(input, merge, Order(|input|, r))
    decreases |input| - r, 1
  {
    hide Fold;
    hide WithFirst;
    FirstIsFold(input, merge, r);
    var first := FirstPart(|input|, r);
    if 2 * r + 2 < |input| {
      TreeIsFold(input, merge, 2 * r + 2);
      FoldAppend(input, merge, first, Order(|input|, 2 * r + 2));
    } else {
      assert first + [] == first;
    }
  }

  lemma {:induction false} RemoveCount(s: seq<nat>, i: nat, x: nat)
    requires i < |s|
    ensures Count(s, x) == Count(s[..i] + s[i + 1..], x) + if s[i] == x then 1 else 0
  {
    assert s == s[..i] + ([s[i]] + s[i + 1..]);
    CountAppend(s[..i], [s[i]] + s[i + 1..], x);
    assert ([s[i]] + s[i + 1..])[1..] == s[i + 1..];
    CountAppend(s[..i], s[i + 1..], x);
  }

  /** Any value can be merged first. */
  lemma {:induction false} FoldPick<T(!new)>(input: seq<T>, merge: (T, T) -> T, order: seq<nat>, i: nat)
    requires Associative(merge) && Commutative(merge) && |order| > 1 && i < |order|
    requires forall i :: 0 <= i < |order| ==> order[i] < |input|
    ensures Fold(input, merge, order) == merge(input[order[i]], Fold(input, merge, order[..i] + order[i + 1..]))
  {
    var before, after := order[..i], order[i + 1..];
    if before == [] {
      assert before + after == order[1..];
    } else if after == [] {
      assert order == before + [order[i]] && before + after == before;
      FoldAppend(input, merge, before, [order[i]]);
    } else {
      assert order == before + ([order[i]] + after) && ([order[i]] + after)[1..] == after;
      FoldAppend(input, merge, before, [order[i]] + after);
      FoldAppend(input, merge, before, after);
    }
  }

  lemma {:induction false} FoldAnyOrder<T(!new)>(input: seq<T>, merge: (T, T) -> T, a: seq<nat>, b: seq<nat>)
    requires Associative(merge) && Commutative(merge) && a != [] && b != [] && SameElements(a, b)
    requires forall i :: 0 <= i < |a| ==> a[i] < |input|
    requires forall i :: 0 <= i < |b| ==> b[i] < |input|
    ensures Fold(input, merge, a) == Fold(input, merge, b)
  {
    SameMembers(a, b, a[0]);
    var i: nat :| i < |b| && b[i] == a[0];
    var rest := b[..i] + b[i + 1..];
    forall x
      ensures Count(a[1..], x) == Count(rest, x)
    {
      assert Count(a, x) == Count(b, x);
      RemoveCount(b, i, x);
    }
    if |a| == 1 {
      assert a[1..] == [];
      NoElements(rest);
      assert |b| == 1;
    } else {
      SameMembers(a[1..], rest, a[1]);
      assert a[1] in a[1..];
      FoldPick(input, merge, b, i);
      FoldAnyOrder(input, merge, a[1..], rest);
    }
  }

  lemma {:induction false} NoElements(s: seq<nat>)
    requires forall x :: Count([], x) == Count(s, x)
    ensures s == []
  {
    if s != [] {
      assert Count([], s[0]) == 0;
    }
  }

  /** For an associative and commutative merge the reduction is the fold in rank order. */
  lemma {:induction false} TreeIsRankOrderFold<T(!new)>(input: seq<T>, merge: (T, T) -> T)
    requires Associative(merge) && Commutative(merge) && input != []
    ensures Tree(input, merge, 0) == Fold(input, merge, RankOrder(|input|))
  {
    TreeIsFold(input, merge, 0);
    EachRankOnce(|input|);
    FoldAnyOrder(input, merge, Order(|input|, 0), RankOrder(|input|));
  }

  // ----- the protocol -----

  datatype Parcel<T> = Parcel(to: nat, value: T)

  /** `stage` counts what each rank has done: received from its first child, from its second,
      sent to its parent.  `mail` holds what a rank sent and its parent has not yet received. */
  datatype State<T> = State(tmp: seq<T>, stage: seq<nat>, mail: seq<Option<Parcel<T>>>)

  ghost function Start<T>(input: seq<T>): State<T> {
    State(input, seq(|input|, _ => 0), seq(|input|, _ => None))
  }

  ghost predicate Sized<T>(s: State<T>, n: nat) {
    |s.tmp| == |s.stage| == |s.mail| == n
  }

  /** A rank blocks in `mpi_recv` until its child has sent something to it. */
  ghost predicate CanReceive<T>(s: State<T>, r: nat, child: nat)
    requires child < |s.mail|
  {
    s.mail[child].Some? && s.mail[child].value.to == r
  }

  ghost predicate Enabled<T>(s: State<T>, r: nat)
    requires Sized(s, |s.tmp|) && r < |s.tmp|
  {
    if s.stage[r] == 0 then 2 * r + 1 < |s.tmp| ==> CanReceive(s, r, 2 * r + 1)
    else if s.stage[r] == 1 then 2 * r + 2 < |s.tmp| ==> CanReceive(s, r, 2 * r + 2)
    else s.stage[r] == 2
  }

  ghost function Receive<T>(s: State<T>, merge: (T, T) -> T, r: nat, child: nat): State<T>
    requires Sized(s, |s.tmp|) && r < |s.tmp|
    requires child < |s.tmp| ==> CanReceive(s, r, child)
  {
    if child < |s.tmp| then
      State(s.tmp[r := merge(s.tmp[r], s.mail[child].value.value)], s.stage[r := s.stage[r] + 1], s.mail[child := None])
    else s.(stage := s.stage[r := s.stage[r] + 1])
  }

  /** One step of rank `r`. */
  ghost function Step<T>(s: State<T>, merge: (T, T) -> T, r: nat): State<T>
    requires Sized(s, |s.tmp|) && r < |s.tmp| && Enabled(s, r)
  {
    if s.stage[r] == 0 then Receive(s, merge, r, 2 * r + 1)
    else if s.stage[r] == 1 then Receive(s, merge, r, 2 * r + 2)
    else
      State(s.tmp, s.stage[r := 3], if r != 0 then s.mail[r := Some(Parcel((r - 1) / 2, s.tmp[r]))] else s.mail)
  }

  /** What rank `r` has merged so far. */
  ghost function Partial<T>(input: seq<T>, merge: (T, T) -> T, r: nat, stage: nat): T
    requires r < |input|
  {
    if stage == 0 then input[r] else if stage == 1 then WithFirst(input, merge, r) else Tree(input, merge, r)
  }

  /** A message is under way exactly between its sending and its receipt, and what has been
      received was sent before. */
  ghost predicate MailOk<T>(input: seq<T>, merge: (T, T) -> T, s: State<T>, c: nat)
    requires Sized(s, |input|) && c < |input|
  {
    (0 < c && s.stage[(c - 1) / 2] > (c - 1) % 2 ==> s.stage[c] == 3) &&
    s.mail[c] ==
      if 0 < c && s.stage[c] == 3 && s.stage[(c - 1) / 2] <= (c - 1) % 2 then
        Some(Parcel((c - 1) / 2, Tree(input, merge, c)))
      else None
  }

  ghost predicate RankOk<T>(input: seq<T>, merge: (T, T) -> T, s: State<T>, r: nat)
    requires Sized(s, |input|) && r < |input|
  {
    s.stage[r] <= 3 && s.tmp[r] == Partial(input, merge, r, s.stage[r])
  }

  ghost predicate Inv<T>(input: seq<T>, merge: (T, T) -> T, s: State<T>) {
    && Sized(s, |input|)
    && (forall r: nat :: r < |input| ==> RankOk(input, merge, s, r))
    && (forall c: nat :: c < |input| ==> MailOk(input, merge, s, c))
  }

  lemma {:induction false} StartKeeps<T>(input: seq<T>, merge: (T, T) -> T)
    ensures Inv(input, merge, Start(input))
  {
  }

  lemma {:induction false} StepRank<T>(input: seq<T>, merge: (T, T) -> T, s: State<T>, r: nat, q: nat)
    requires Inv(input, merge, s) && r < |input| && Enabled(s, r) && q < |input|
    ensures RankOk(input, merge, Step(s, merge, r), q)
  {
    assert RankOk(input, merge, s, q);
    if q == r && s.stage[r] == 0 && 2 * r + 1 < |input| {
      assert MailOk(input, merge, s, 2 * r + 1);
    }
    if q == r && s.stage[r] == 1 && 2 * r + 2 < |input| {
      assert MailOk(input, merge, s, 2 * r + 2);
    }
  }

  lemma {:induction false} StepMail<T>(input: seq<T>, merge: (T, T) -> T, s: State<T>, r: nat, c: nat)
    requires Inv(input, merge, s) && r < |input| && Enabled(s, r) && c < |input|
    ensures MailOk(input, merge, Step(s, merge, r), c)
  {
    assert RankOk(input, merge, s, r) && MailOk(input, merge, s, c);
  }

  lemma {:induction false} StepKeeps<T>(input: seq<T>, merge: (T, T) -> T, s: State<T>, r: nat)
    requires Inv(input, merge, s) && r < |input| && Enabled(s, r)
    ensures Inv(input, merge, Step(s, merge, r))
  {
    var s' := Step(s, merge, r);
    forall q: nat | q < |input|
      ensures RankOk(input, merge, s', q)
    {
      StepRank(input, merge, s, r, q);
    }
    forall c: nat | c < |input|
      ensures MailOk(input, merge, s', c)
    {
      StepMail(input, merge, s, r, c);
    }
  }

  ghost predicate Finished<T>(s: State<T>) {
    forall r :: 0 <= r < |s.stage| ==> s.stage[r] == 3
  }

  /** Ranks take their steps in any order; a rank that blocks stays where it is. */
  ghost function Run<T>(input: seq<T>, merge: (T, T) -> T, schedule: seq<nat>): (s: State<T>)
    ensures Inv(input, merge, s)
  {
    if schedule == [] then StartKeeps(input, merge); Start(input)
    else
      var s := Run(input, merge, schedule[..|schedule| - 1]);
      var r := schedule[|schedule| - 1];
      if r < |input| && Enabled(s, r) then StepKeeps(input, merge, s, r); Step(s, merge, r)
      else s
  }

  /** Until all are finished some rank can go on: among the unfinished ranks, the largest. */
  lemma {:induction false} SomeRankCanGoOn<T>(input: seq<T>, merge: (T, T) -> T, s: State<T>) returns (r: nat)
    requires Inv(input, merge, s) && !Finished(s)
    ensures r < |input| && s.stage[r] < 3 && Enabled(s, r)
  {
    r := |input| - 1;
    while s.stage[r] == 3
      invariant 0 <= r < |input|
      invariant forall q :: r < q < |input| ==> s.stage[q] == 3
      decreases r
    {
      if r == 0 {
        assert Finished(s);
      }
      r := r - 1;
    }
    LargestCanGoOn(input, merge, s, r);
  }

  lemma {:induction false} LargestCanGoOn<T>(input: seq<T>, merge: (T, T) -> T, s: State<T>, r: nat)
    requires Inv(input, merge, s) && r < |input| && s.stage[r] != 3
    requires forall q :: r < q < |input| ==> s.stage[q] == 3
    ensures s.stage[r] < 3 && Enabled(s, r)
  {
    assert RankOk(input, merge, s, r);
    if s.stage[r] == 0 && 2 * r + 1 < |input| {
      assert MailOk(input, merge, s, 2 * r + 1);
    }
    if s.stage[r] == 1 && 2 * r + 2 < |input| {
      assert MailOk(input, merge, s, 2 * r + 2);
    }
  }

  function Work(stage: seq<nat>): int {
    if stage == [] then 0 else Work(stage[..|stage| - 1]) + 3 - stage[|stage| - 1]
  }

  lemma {:induction false} WorkDecreases(stage: seq<nat>, r: nat)
    requires r < |stage|
    ensures Work(stage[r := stage[r] + 1]) == Work(stage) - 1
  {
    var n := |stage| - 1;
    var stage' := stage[r := stage[r] + 1];
    if r < n {
      assert stage'[..n] == stage[..n][r := stage[r] + 1];
      WorkDecreases(stage[..n], r);
    } else {
      assert stage'[..n] == stage[..n];
    }
  }

  lemma {:induction false} StepWorks<T>(input: seq<T>, merge: (T, T) -> T, s: State<T>, r: nat)
    requires Inv(input, merge, s) && r < |input| && Enabled(s, r)
    ensures Work(Step(s, merge, r).stage) == Work(s.stage) - 1
  {
    assert RankOk(input, merge, s, r);
    WorkDecreases(s.stage, r);
  }

  lemma {:induction false} WorkLeft(stage: seq<nat>)
    requires forall r :: 0 <= r < |stage| ==> stage[r] <= 3
    ensures Work(stage) >= 0
  {
    if stage != [] {
      WorkLeft(stage[..|stage| - 1]);
    }
  }

  /** Every schedule, however it began, can be carried on until all ranks are finished, and
      the number of steps that takes is known in advance. */
  lemma {:induction false} Finishes<T>(input: seq<T>, merge: (T, T) -> T, schedule: seq<nat>) returns (more: seq<nat>)
    ensures Finished(Run(input, merge, schedule + more))
    ensures |more| == Work(Run(input, merge, schedule).stage)
    decreases Work(Run(input, merge, schedule).stage)
  {
    var s := Run(input, merge, schedule);
    forall r | 0 <= r < |s.stage|
      ensures s.stage[r] <= 3
    {
      assert RankOk(input, merge, s, r);
    }
    WorkLeft(s.stage);
    if Finished(s) {
      NoWork(s.stage);
      more := [];
      assert schedule + [] == schedule;
    } else {
      var r := SomeRankCanGoOn(input, merge, s);
      StepWorks(input, merge, s, r);
      assert (schedule + [r])[..|schedule|] == schedule;
      WorkLeft(Run(input, merge, schedule + [r]).stage) by {
        forall q | 0 <= q < |input|
          ensures Run(input, merge, schedule + [r]).stage[q] <= 3
        {
          assert RankOk(input, merge, Run(input, merge, schedule + [r]), q);
        }
      }
      var rest := Finishes(input, merge, schedule + [r]);
      more := [r] + rest;
      assert schedule + more == schedule + [r] + rest;
    }
  }

  lemma {:induction false} NoWork(stage: seq<nat>)
    requires forall r :: 0 <= r < |stage| ==> stage[r] == 3
    ensures Work(stage) == 0
  {
    if stage != [] {
      NoWork(stage[..|stage| - 1]);
    }
  }

  /** The result that every rank returns: what rank 0 broadcasts. */
  ghost function Result<T>(s: State<T>): T
    requires s.tmp != []
  {
    s.tmp[0]
  }

  /** Whatever the schedule was, once all ranks are finished every one of them returns the
      fold of all values in rank order, and no message is left over. */
  lemma {:induction false} AllReduceFolds<T(!new)>(input: seq<T>, merge: (T, T) -> T, schedule: seq<nat>)
    requires input != [] && Associative(merge) && Commutative(merge) && Finished(Run(input, merge, schedule))
    ensures Result(Run(input, merge, schedule)) == Fold(input, merge, RankOrder(|input|))
    ensures forall c: nat :: c < |input| ==> Run(input, merge, schedule).mail[c] == None
  {
    var s := Run(input, merge, schedule);
    assert RankOk(input, merge, s, 0);
    TreeIsRankOrderFold(input, merge);
    forall c: nat | c < |input|
      ensures s.mail[c] == None
    {
      assert MailOk(input, merge, s, c);
    }
  }

  /** The merges as the ranks carry them out, here for the schedule in which every rank waits
      for the larger ones: `tmp[r]` is overwritten with what its children send. */
  method MergeChildren<T>(tmp: array<T>, merge: (T, T) -> T, ghost input: seq<T>)
    requires tmp[..] == input
    modifies tmp
    ensures forall r: nat {:trigger tmp[r]} :: r < tmp.Length ==> tmp[r] == Tree(input, merge, r)
  {
    var r := tmp.Length;
    assert forall q: nat :: q < r ==> tmp[..][q] == tmp[q];
    while r > 0
      invariant 0 <= r <= tmp.Length == |input|
      invariant forall q: nat :: q < r ==> tmp[q] == input[q]
      invariant forall q: nat {:trigger tmp[q]} :: r <= q < tmp.Length ==> tmp[q] == Tree(input, merge, q)
    {
      r := r - 1;
      var firstChild, secondChild := 2 * r + 1, 2 * (r + 1);
      if firstChild < tmp.Length {
        tmp[r] := merge(tmp[r], tmp[firstChild]);
      }
      assert tmp[r] == WithFirst(input, merge, r);
      if secondChild < tmp.Length {
        tmp[r] := merge(tmp[r], tmp[secondChild]);
      }
      assert tmp[r] == Tree(input, merge, r);
    }
  }

  // ----- the form with optional values -----

  /** The merge of the optional form: an absent value is skipped. */
  function MergePresent<T>(merge: (T, T) -> T): (Option<T>, Option<T>) -> Option<T> {
    (a: Option<T>, b: Option<T>) =>
      if a.Some? && b.Some? then Some(merge(a.value, b.value)) else if b.Some? then b else a
  }

  lemma {:induction false} PresentKeepsLaws<T(!new)>(merge: (T, T) -> T)
    requires Associative(merge) && Commutative(merge)
    ensures Associative(MergePresent(merge)) && Commutative(MergePresent(merge))
  {
    var m := MergePresent(merge);
    forall x, y, z
      ensures m(m(x, y), z) == m(x, m(y, z))
    {
      if x.Some? && y.Some? && z.Some? {
        assert merge(merge(x.value, y.value), z.value) == merge(x.value, merge(y.value, z.value));
      }
    }
    forall x, y
      ensures m(x, y) == m(y, x)
    {
      if x.Some? && y.Some? {
        assert merge(x.value, y.value) == merge(y.value, x.value);
      }
    }
  }

  function Present<T>(input: seq<Option<T>>): seq<T> {
    if input == [] then []
    else Present(input[..|input| - 1]) + if input[|input| - 1].Some? then [input[|input| - 1].value] else []
  }

  /** Folding optional values is folding those that are present, and is absent only if all are. */
  lemma {:induction false} FoldPresent<T(!new)>(input: seq<Option<T>>, merge: (T, T) -> T)
    requires Associative(merge) && Commutative(merge) && input != []
    ensures Fold(input, MergePresent(merge), RankOrder(|input|))
         == if Present(input) == [] then None else Some(Fold(Present(input), merge, RankOrder(|Present(input)|)))
  {
    var n := |input| - 1;
    var m := MergePresent(merge);
    var before, last := input[..n], input[n];
    PresentKeepsLaws(merge);
    if n == 0 {
      assert before == [] && RankOrder(1) == [0];
      if last.Some? {
        assert Present(input) == [last.value];
      }
    } else {
      FoldPresent(before, merge);
      FoldLast(input, m);
      var p := Present(before);
      if last.Some? && p != [] {
        assert Present(input) == p + [last.value];
        FoldLast(p + [last.value], merge);
        assert (p + [last.value])[..|p|] == p;
      } else if last.Some? {
        assert Present(input) == [last.value];
        assert RankOrder(1) == [0];
      } else {
        assert Present(input) == p;
      }
    }
  }

  lemma {:induction false} FoldLast<T(!new)>(input: seq<T>, merge: (T, T) -> T)
    requires Associative(merge) && |input| > 1
    ensures Fold(input, merge, RankOrder(|input|))
         == merge(Fold(input[..|input| - 1], merge, RankOrder(|input| - 1)), input[|input| - 1])
  {
    var n := |input| - 1;
    var last: seq<nat> := [n];
    assert RankOrder(n + 1) == RankOrder(n) + last;
    FoldAppend(input, merge, RankOrder(n), last);
    FoldPrefix(input, merge, RankOrder(n), n);
  }

  lemma {:induction false} FoldPrefix<T>(input: seq<T>, merge: (T, T) -> T, order: seq<nat>, n: nat)
    requires order != [] && n <= |input| && forall i :: 0 <= i < |order| ==> order[i] < n
    ensures Fold(input, merge, order) == Fold(input[..n], merge, order)
  {
    if |order| > 1 {
      FoldPrefix(input, merge, order[1..], n);
    }
  }
}
