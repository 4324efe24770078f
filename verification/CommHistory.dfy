/** What arrived messages and pre-barrier callbacks make a communicator do, as values: the
    packets they put into send buffers, and the counters and callbacks they leave behind. */
module CommHistory {
  import opened CommBuffers

  datatype Send = Async(dest: nat, bytes: nat) | QueueBytes(dest: nat, bytes: nat)

  /** A pre-barrier callback may send and may register further callbacks; so may a handler. */
  datatype Callback = Callback(sends: seq<Send>, registers: seq<Callback>)

  datatype Incoming = Execute(sends: seq<Send>, registers: seq<Callback>) | Route(dest: nat, bytes: nat)

  /** A packet on its way into the send buffer of rank `hop`. */
  datatype Put = Put(hop: nat, packet: Packet)

  // ----- what sends, messages and callbacks put into buffers -----

  /** `async` goes to the next hop towards its destination, a broadcast message straight to the
      partner. */
  function PutOf(nextHop: nat -> nat, x: Send): Put {
    match x
    case Async(dest, bytes) => Put(nextHop(dest), Packet(dest, bytes))
    case QueueBytes(dest, bytes) => Put(dest, Packet(-1, bytes))
  }

  function PutsOf(nextHop: nat -> nat, sends: seq<Send>): (puts: seq<Put>)
    ensures |puts| == |sends|
  {
    seq(|sends|, i requires 0 <= i < |sends| => PutOf(nextHop, sends[i]))
  }

  function MessagePuts(nextHop: nat -> nat, m: Incoming): seq<Put> {
    match m
    case Execute(sends, _) => PutsOf(nextHop, sends)
    case Route(dest, bytes) => [Put(nextHop(dest), Packet(dest, bytes))]
  }

  function PutsIn(nextHop: nat -> nat, b: seq<Incoming>): seq<Put> {
    if b == [] then [] else PutsIn(nextHop, b[..|b| - 1]) + MessagePuts(nextHop, b[|b| - 1])
  }

  /** Everything callbacks put into buffers, with all callbacks that they register. */
  function CallbackPuts(nextHop: nat -> nat, callbacks: seq<Callback>): seq<Put> {
    if callbacks == [] then []
    else
      PutsOf(nextHop, callbacks[0].sends) + CallbackPuts(nextHop, callbacks[0].registers)
      + CallbackPuts(nextHop, callbacks[1..])
  }

  // ----- how they count -----

  function Executes(b: seq<Incoming>): nat {
    if b == [] then 0 else Executes(b[..|b| - 1]) + if b[|b| - 1].Execute? then 1 else 0
  }

  function SendsIn(b: seq<Incoming>): nat {
    if b == [] then 0 else SendsIn(b[..|b| - 1]) + if b[|b| - 1].Execute? then |b[|b| - 1].sends| else 0
  }

  function Routes(b: seq<Incoming>): nat {
    if b == [] then 0 else Routes(b[..|b| - 1]) + if b[|b| - 1].Route? then 1 else 0
  }

  function RegistersIn(b: seq<Incoming>): seq<Callback> {
    if b == [] then [] else RegistersIn(b[..|b| - 1]) + if b[|b| - 1].Execute? then b[|b| - 1].registers else []
  }

  /** How many callbacks will run, with all callbacks that they register. */
  function Work(callbacks: seq<Callback>): nat {
    if callbacks == [] then 0 else 1 + Work(callbacks[0].registers) + Work(callbacks[1..])
  }

  // ----- what a communicator has counted and done so far -----

  datatype Tally = Tally(recv: nat, sent: nat, forwarded: nat, callbacks: seq<Callback>, puts: seq<Put>)

  /** After the messages `b` have been handled, one after the other. */
  function Handled(nextHop: nat -> nat, t: Tally, b: seq<Incoming>): Tally {
    Tally(t.recv + Executes(b), t.sent + SendsIn(b), t.forwarded + Routes(b),
          t.callbacks + RegistersIn(b), t.puts + PutsIn(nextHop, b))
  }

  /** The messages `b` have been handled and `sends` been sent.  Which packet came first is
      known when nothing arrived in between. */
  ghost predicate Sending(nextHop: nat -> nat, t: Tally, t': Tally, b: seq<Incoming>, sends: seq<Send>) {
    && t'.recv == t.recv + Executes(b)
    && t'.sent == t.sent + SendsIn(b) + |sends|
    && t'.forwarded == t.forwarded + Routes(b)
    && t'.callbacks == t.callbacks + RegistersIn(b)
    && t.puts <= t'.puts
    && multiset(t'.puts) == multiset(t.puts) + multiset(PutsIn(nextHop, b)) + multiset(PutsOf(nextHop, sends))
    && (b == [] ==> t'.puts == t.puts + PutsOf(nextHop, sends))
  }

  /** The messages `b` have been handled and callbacks been run: what was done, with what the
      waiting callbacks will still do, grows by exactly what the messages bring. */
  ghost predicate Accounted(nextHop: nat -> nat, t: Tally, t': Tally, b: seq<Incoming>) {
    var now, then' := CallbackPuts(nextHop, t.callbacks), CallbackPuts(nextHop, t'.callbacks);
    var new' := CallbackPuts(nextHop, RegistersIn(b));
    && t'.recv == t.recv + Executes(b)
    && t'.forwarded == t.forwarded + Routes(b)
    && t'.sent + |then'| == t.sent + |now| + SendsIn(b) + |new'|
    && t.puts <= t'.puts
    && multiset(t'.puts) + multiset(then')
       == multiset(t.puts) + multiset(now) + multiset(PutsIn(nextHop, b)) + multiset(new')
  }

  // ----- one after the other -----

  lemma {:induction false} Associative<T>(a: seq<T>, b: seq<T>, c: seq<T>)
    ensures a + (b + c) == (a + b) + c
  {
  }

  lemma {:induction false} CountsAppend(a: seq<Incoming>, b: seq<Incoming>)
    ensures Executes(a + b) == Executes(a) + Executes(b)
    ensures SendsIn(a + b) == SendsIn(a) + SendsIn(b)
    ensures Routes(a + b) == Routes(a) + Routes(b)
  {
    if b == [] {
      assert a + b == a;
    } else {
      assert (a + b)[..|a + b| - 1] == a + b[..|b| - 1];
      CountsAppend(a, b[..|b| - 1]);
    }
  }

  lemma {:induction false} RegistersAppend(a: seq<Incoming>, b: seq<Incoming>)
    ensures RegistersIn(a + b) == RegistersIn(a) + RegistersIn(b)
  {
    if b == [] {
      assert a + b == a;
    } else {
      var before, m := b[..|b| - 1], b[|b| - 1];
      assert (a + b)[..|a + b| - 1] == a + before;
      RegistersAppend(a, before);
      Associative(RegistersIn(a), RegistersIn(before), if m.Execute? then m.registers else []);
    }
  }

  lemma {:induction false} PutsAppend(nextHop: nat -> nat, a: seq<Incoming>, b: seq<Incoming>)
    ensures PutsIn(nextHop, a + b) == PutsIn(nextHop, a) + PutsIn(nextHop, b)
  {
    hide MessagePuts;
    if b == [] {
      assert a + b == a;
    } else {
      var before, m := b[..|b| - 1], b[|b| - 1];
      assert (a + b)[..|a + b| - 1] == a + before;
      PutsAppend(nextHop, a, before);
      Associative(PutsIn(nextHop, a), PutsIn(nextHop, before), MessagePuts(nextHop, m));
    }
  }

  lemma {:induction false} AllAppend(nextHop: nat -> nat, a: seq<Incoming>, b: seq<Incoming>)
    ensures Executes(a + b) == Executes(a) + Executes(b)
    ensures SendsIn(a + b) == SendsIn(a) + SendsIn(b)
    ensures Routes(a + b) == Routes(a) + Routes(b)
    ensures RegistersIn(a + b) == RegistersIn(a) + RegistersIn(b)
    ensures PutsIn(nextHop, a + b) == PutsIn(nextHop, a) + PutsIn(nextHop, b)
  {
    CountsAppend(a, b);
    RegistersAppend(a, b);
    PutsAppend(nextHop, a, b);
  }

  lemma {:induction false} OneMoreMessage(nextHop: nat -> nat, t: Tally, b: seq<Incoming>, i: nat)
    requires i < |b|
    ensures Handled(nextHop, Handled(nextHop, t, b[..i]), [b[i]]) == Handled(nextHop, t, b[..i + 1])
  {
    assert b[..i] + [b[i]] == b[..i + 1];
    HandledTwice(nextHop, t, b[..i], [b[i]]);
  }

  lemma {:induction false} OneMessage(nextHop: nat -> nat, t: Tally, m: Incoming)
    ensures Handled(nextHop, t, [m]) ==
      match m
      case Execute(sends, registers) =>
        Tally(t.recv + 1, t.sent + |sends|, t.forwarded, t.callbacks + registers, t.puts + PutsOf(nextHop, sends))
      case Route(dest, bytes) =>
        t.(forwarded := t.forwarded + 1, puts := t.puts + [Put(nextHop(dest), Packet(dest, bytes))])
  {
    assert [m][..0] == [];
    assert RegistersIn([m]) == if m.Execute? then m.registers else [];
    assert PutsIn(nextHop, [m]) == MessagePuts(nextHop, m);
    assert Executes([m]) == Executes([]) + if m.Execute? then 1 else 0;
    assert SendsIn([m]) == SendsIn([]) + if m.Execute? then |m.sends| else 0;
    assert Routes([m]) == Routes([]) + if m.Route? then 1 else 0;
    assert m.Route? ==> t.callbacks + [] == t.callbacks;
  }

  lemma {:induction false} HandledTwice(nextHop: nat -> nat, t: Tally, a: seq<Incoming>, b: seq<Incoming>)
    ensures Handled(nextHop, Handled(nextHop, t, a), b) == Handled(nextHop, t, a + b)
  {
    AllAppend(nextHop, a, b);
    Associative(t.callbacks, RegistersIn(a), RegistersIn(b));
    Associative(t.puts, PutsIn(nextHop, a), PutsIn(nextHop, b));
    hide PutsIn;
    hide RegistersIn;
  }

  lemma {:induction false} HandledNone(nextHop: nat -> nat, t: Tally)
    ensures Handled(nextHop, t, []) == t
  {
  }

  lemma {:induction false} HandledIsSending(nextHop: nat -> nat, t: Tally, b: seq<Incoming>)
    ensures Sending(nextHop, t, Handled(nextHop, t, b), b, [])
  {
    assert PutsIn(nextHop, []) == [];
    hide PutsIn;
    hide RegistersIn;
  }

  lemma {:induction false} PutsOfAppend(nextHop: nat -> nat, a: seq<Send>, b: seq<Send>)
    ensures PutsOf(nextHop, a + b) == PutsOf(nextHop, a) + PutsOf(nextHop, b)
  {
  }

  lemma {:induction false} SendingTwice(nextHop: nat -> nat, t: Tally, t': Tally, t'': Tally, a: seq<Incoming>,
                                        b: seq<Incoming>, first: seq<Send>, then': seq<Send>)
    requires Sending(nextHop, t, t', a, first) && Sending(nextHop, t', t'', b, then')
    ensures Sending(nextHop, t, t'', a + b, first + then')
  {
    AllAppend(nextHop, a, b);
    PutsOfAppend(nextHop, first, then');
    Associative(t.callbacks, RegistersIn(a), RegistersIn(b));
    Associative(t.puts, PutsOf(nextHop, first), PutsOf(nextHop, then'));
    hide PutsOf;
    hide PutsIn;
    hide RegistersIn;
    hide Executes;
    hide SendsIn;
    hide Routes;
  }

  lemma {:induction false} CallbackPutsAppend(nextHop: nat -> nat, a: seq<Callback>, b: seq<Callback>)
    ensures CallbackPuts(nextHop, a + b) == CallbackPuts(nextHop, a) + CallbackPuts(nextHop, b)
    decreases a
  {
    hide PutsOf;
    if a == [] {
      assert a + b == b;
    } else {
      CallbackPutsAppend(nextHop, a[1..], b);
      assert (a + b)[0] == a[0] && (a + b)[1..] == a[1..] + b;
      var own := PutsOf(nextHop, a[0].sends) + CallbackPuts(nextHop, a[0].registers);
      assert CallbackPuts(nextHop, a + b) == own + CallbackPuts(nextHop, a[1..] + b);
      assert CallbackPuts(nextHop, a) == own + CallbackPuts(nextHop, a[1..]);
      hide *;
      Associative(own, CallbackPuts(nextHop, a[1..]), CallbackPuts(nextHop, b));
    }
  }

  lemma {:induction false} WorkAppend(a: seq<Callback>, b: seq<Callback>)
    ensures Work(a + b) == Work(a) + Work(b)
    decreases a
  {
    if a == [] {
      assert a + b == b;
    } else {
      WorkAppend(a[1..], b);
      assert (a + b)[1..] == a[1..] + b;
    }
  }

  lemma {:induction false} WorkFirst(callbacks: seq<Callback>)
    requires callbacks != []
    ensures Work(callbacks) == 1 + Work(callbacks[0].registers) + Work(callbacks[1..])
  {
  }

  lemma {:induction false} AccountedTwice(nextHop: nat -> nat, t: Tally, t': Tally, t'': Tally, a: seq<Incoming>,
                                          b: seq<Incoming>)
    requires Accounted(nextHop, t, t', a) && Accounted(nextHop, t', t'', b)
    ensures Accounted(nextHop, t, t'', a + b)
  {
    AllAppend(nextHop, a, b);
    CallbackPutsAppend(nextHop, RegistersIn(a), RegistersIn(b));
    hide PutsIn;
    hide CallbackPuts;
    hide RegistersIn;
    hide Executes;
    hide SendsIn;
    hide Routes;
  }

  /** Handling messages runs no callback. */
  lemma {:induction false} HandledAccounted(nextHop: nat -> nat, t: Tally, b: seq<Incoming>)
    ensures Accounted(nextHop, t, Handled(nextHop, t, b), b)
  {
    CallbackPutsAppend(nextHop, t.callbacks, RegistersIn(b));
  }

  /** Running the oldest callback: it is taken off the list, sends, and registers others. */
  lemma {:induction false} RunAccounted(nextHop: nat -> nat, t: Tally, t': Tally, b: seq<Incoming>)
    requires t.callbacks != []
    requires Sending(nextHop, t.(callbacks := t.callbacks[1..]), t', b, t.callbacks[0].sends)
    ensures Accounted(nextHop, t, t'.(callbacks := t'.callbacks + t.callbacks[0].registers), b)
  {
    var fn, rest := t.callbacks[0], t.callbacks[1..];
    CallbackPutsAppend(nextHop, rest, RegistersIn(b));
    CallbackPutsAppend(nextHop, rest + RegistersIn(b), fn.registers);
  }

  // ----- which messages have arrived -----

  function Messages(buffers: seq<seq<Incoming>>): seq<Incoming> {
    if buffers == [] then [] else Messages(buffers[..|buffers| - 1]) + buffers[|buffers| - 1]
  }

  /** Buffers arrive in the order of the script. */
  ghost predicate Later(before: seq<seq<Incoming>>, after: seq<seq<Incoming>>) {
    |after| <= |before| && after == before[|before| - |after|..]
  }

  /** The messages of the buffers that arrived in between. */
  function Arrived(before: seq<seq<Incoming>>, after: seq<seq<Incoming>>): seq<Incoming> {
    if |after| <= |before| then Messages(before[..|before| - |after|]) else []
  }

  lemma {:induction false} MessagesAppend(a: seq<seq<Incoming>>, b: seq<seq<Incoming>>)
    ensures Messages(a + b) == Messages(a) + Messages(b)
  {
    if b == [] {
      assert a + b == a;
    } else {
      assert (a + b)[..|a + b| - 1] == a + b[..|b| - 1];
      MessagesAppend(a, b[..|b| - 1]);
    }
  }

  lemma {:induction false} ArrivedTwice(s: seq<seq<Incoming>>, s': seq<seq<Incoming>>, s'': seq<seq<Incoming>>)
    requires Later(s, s') && Later(s', s'')
    ensures Later(s, s'') && Arrived(s, s'') == Arrived(s, s') + Arrived(s', s'')
  {
    var n, m := |s| - |s'|, |s'| - |s''|;
    assert s[..n + m] == s[..n] + s'[..m];
    MessagesAppend(s[..n], s'[..m]);
  }

  lemma {:induction false} ArrivedNone(s: seq<seq<Incoming>>)
    ensures Later(s, s) && Arrived(s, s) == []
  {
  }

  lemma {:induction false} ArrivedOne(s: seq<seq<Incoming>>)
    requires s != []
    ensures Later(s, s[1..]) && Arrived(s, s[1..]) == s[0]
  {
    assert s[..1] == [s[0]] && [s[0]][..0] == [];
    assert Messages([s[0]]) == Messages([]) + s[0] == s[0];
  }

  // ----- from one state to a later one -----

  /** Exactly the messages that arrived were handled, and nothing else was done. */
  ghost predicate Receiving(nextHop: nat -> nat, t: Tally, t': Tally, s: seq<seq<Incoming>>,
                            s': seq<seq<Incoming>>) {
    Later(s, s') && t' == Handled(nextHop, t, Arrived(s, s'))
  }

  /** Exactly these messages were handled, and `sends` were sent. */
  ghost predicate SendingMeanwhile(nextHop: nat -> nat, t: Tally, t': Tally, s: seq<seq<Incoming>>,
                                   s': seq<seq<Incoming>>, sends: seq<Send>) {
    Later(s, s') && Sending(nextHop, t, t', Arrived(s, s'), sends)
  }

  /** Exactly these messages were handled, and otherwise only callbacks were run. */
  ghost predicate Notifying(nextHop: nat -> nat, t: Tally, t': Tally, s: seq<seq<Incoming>>,
                            s': seq<seq<Incoming>>) {
    Later(s, s') && Accounted(nextHop, t, t', Arrived(s, s'))
  }

  lemma {:induction false} ReceivingNone(nextHop: nat -> nat, t: Tally, s: seq<seq<Incoming>>)
    ensures Receiving(nextHop, t, t, s, s)
  {
    ArrivedNone(s);
    HandledNone(nextHop, t);
  }

  lemma {:induction false} ReceivingTwice(nextHop: nat -> nat, t: Tally, t': Tally, t'': Tally,
                                          s: seq<seq<Incoming>>, s': seq<seq<Incoming>>, s'': seq<seq<Incoming>>)
    requires Receiving(nextHop, t, t', s, s') && Receiving(nextHop, t', t'', s', s'')
    ensures Receiving(nextHop, t, t'', s, s'')
  {
    ArrivedTwice(s, s', s'');
    HandledTwice(nextHop, t, Arrived(s, s'), Arrived(s', s''));
  }

  /** Handling the messages of the next buffer of the script. */
  lemma {:induction false} ReceivingOne(nextHop: nat -> nat, t: Tally, s: seq<seq<Incoming>>)
    requires s != []
    ensures Receiving(nextHop, t, Handled(nextHop, t, s[0]), s, s[1..])
  {
    ArrivedOne(s);
  }

  lemma {:induction false} ReceivingIsSending(nextHop: nat -> nat, t: Tally, t': Tally, s: seq<seq<Incoming>>,
                                              s': seq<seq<Incoming>>)
    requires Receiving(nextHop, t, t', s, s')
    ensures SendingMeanwhile(nextHop, t, t', s, s', [])
  {
    HandledIsSending(nextHop, t, Arrived(s, s'));
  }

  /** One packet is put into a buffer and counted. */
  lemma {:induction false} SendingOne(nextHop: nat -> nat, t: Tally, s: seq<seq<Incoming>>, x: Send)
    ensures SendingMeanwhile(nextHop, t, t.(sent := t.sent + 1, puts := t.puts + [PutOf(nextHop, x)]), s, s, [x])
  {
    ArrivedNone(s);
    assert PutsOf(nextHop, [x]) == [PutOf(nextHop, x)];
    assert t.callbacks + [] == t.callbacks;
  }

  lemma {:induction false} SendingThen(nextHop: nat -> nat, t: Tally, t': Tally, t'': Tally,
                                       s: seq<seq<Incoming>>, s': seq<seq<Incoming>>, s'': seq<seq<Incoming>>,
                                       first: seq<Send>, then': seq<Send>)
    requires SendingMeanwhile(nextHop, t, t', s, s', first) && SendingMeanwhile(nextHop, t', t'', s', s'', then')
    ensures SendingMeanwhile(nextHop, t, t'', s, s'', first + then')
  {
    ArrivedTwice(s, s', s'');
    SendingTwice(nextHop, t, t', t'', Arrived(s, s'), Arrived(s', s''), first, then');
  }

  /** While nothing arrives, what is put into buffers is known in order. */
  lemma {:induction false} SendingAlone(nextHop: nat -> nat, t: Tally, t': Tally, s: seq<seq<Incoming>>,
                                        s': seq<seq<Incoming>>, sends: seq<Send>)
    requires SendingMeanwhile(nextHop, t, t', s, s', sends) && |s'| == |s|
    ensures s' == s && t' == t.(sent := t.sent + |sends|, puts := t.puts + PutsOf(nextHop, sends))
  {
    ArrivedNone(s);
    assert t.callbacks + [] == t.callbacks;
  }

  lemma {:induction false} NotifyingNone(nextHop: nat -> nat, t: Tally, s: seq<seq<Incoming>>)
    ensures Notifying(nextHop, t, t, s, s)
  {
    ReceivingNone(nextHop, t, s);
    ReceivingIsNotifying(nextHop, t, t, s, s);
  }

  lemma {:induction false} ReceivingIsNotifying(nextHop: nat -> nat, t: Tally, t': Tally, s: seq<seq<Incoming>>,
                                                s': seq<seq<Incoming>>)
    requires Receiving(nextHop, t, t', s, s')
    ensures Notifying(nextHop, t, t', s, s')
  {
    HandledAccounted(nextHop, t, Arrived(s, s'));
  }

  lemma {:induction false} RunNotifies(nextHop: nat -> nat, t: Tally, t': Tally, s: seq<seq<Incoming>>,
                                       s': seq<seq<Incoming>>)
    requires t.callbacks != []
    requires SendingMeanwhile(nextHop, t.(callbacks := t.callbacks[1..]), t', s, s', t.callbacks[0].sends)
    ensures Notifying(nextHop, t, t'.(callbacks := t'.callbacks + t.callbacks[0].registers), s, s')
  {
    RunAccounted(nextHop, t, t', Arrived(s, s'));
  }

  lemma {:induction false} NotifyingTwice(nextHop: nat -> nat, t: Tally, t': Tally, t'': Tally,
                                          s: seq<seq<Incoming>>, s': seq<seq<Incoming>>, s'': seq<seq<Incoming>>)
    requires Notifying(nextHop, t, t', s, s') && Notifying(nextHop, t', t'', s', s'')
    ensures Notifying(nextHop, t, t'', s, s'')
  {
    ArrivedTwice(s, s', s'');
    AccountedTwice(nextHop, t, t', t'', Arrived(s, s'), Arrived(s', s''));
  }

  /** With no callback left, everything the callbacks were to do has been done. */
  lemma {:induction false} AllNotified(nextHop: nat -> nat, t: Tally, t': Tally, s: seq<seq<Incoming>>,
                                       s': seq<seq<Incoming>>)
    requires Notifying(nextHop, t, t', s, s') && t'.callbacks == []
    ensures Later(s, s')
    ensures var b := Arrived(s, s'); var ran := CallbackPuts(nextHop, t.callbacks + RegistersIn(b));
      && t'.recv == t.recv + Executes(b) && t'.forwarded == t.forwarded + Routes(b)
      && t'.sent == t.sent + SendsIn(b) + |ran|
      && t.puts <= t'.puts
      && multiset(t'.puts) == multiset(t.puts) + multiset(PutsIn(nextHop, b)) + multiset(ran)
  {
    var b := Arrived(s, s');
    var now, new' := CallbackPuts(nextHop, t.callbacks), CallbackPuts(nextHop, RegistersIn(b));
    CallbackPutsAppend(nextHop, t.callbacks, RegistersIn(b));
    assert CallbackPuts(nextHop, t'.callbacks) == [];
    assert multiset(t'.puts) + multiset([])
        == multiset(t.puts) + multiset(now) + multiset(PutsIn(nextHop, b)) + multiset(new');
    assert t'.recv == t.recv + Executes(b) && t'.forwarded == t.forwarded + Routes(b);
    assert t'.sent == t.sent + SendsIn(b) + |now + new'|;
    hide *;
    Regroup(multiset(t'.puts), multiset(t.puts), now, multiset(PutsIn(nextHop, b)), new');
  }

  lemma {:induction false} Regroup<T>(a: multiset<T>, b: multiset<T>, c: seq<T>, d: multiset<T>, e: seq<T>)
    requires a + multiset([]) == b + multiset(c) + d + multiset(e)
    ensures a == b + d + multiset(c + e)
  {
    assert multiset(c + e) == multiset(c) + multiset(e);
    forall x ensures a[x] == (b + d + multiset(c + e))[x] {
      assert (a + multiset([]))[x] == (b + multiset(c) + d + multiset(e))[x];
    }
  }

  // ----- what ended up in each buffer -----

  /** The packets put into the buffer of rank `d`, in order. */
  function PlacedAt(puts: seq<Put>, d: nat): seq<Packet> {
    if puts == [] then []
    else PlacedAt(puts[..|puts| - 1], d) + if puts[|puts| - 1].hop == d then [puts[|puts| - 1].packet] else []
  }

  function Placed(ranks: nat, puts: seq<Put>): seq<seq<Packet>> {
    seq(ranks, d requires 0 <= d < ranks => PlacedAt(puts, d))
  }

  lemma {:induction false} PlacedOneMore(ranks: nat, puts: seq<Put>, d: nat, p: Packet)
    requires d < ranks
    ensures var queued := Placed(ranks, puts);
      Placed(ranks, puts + [Put(d, p)]) == queued[d := queued[d] + [p]]
  {
    var queued, more := Placed(ranks, puts), puts + [Put(d, p)];
    assert more[..|puts|] == puts;
    forall e | 0 <= e < ranks ensures Placed(ranks, more)[e] == queued[d := queued[d] + [p]][e] {
      assert PlacedAt(more, e) == PlacedAt(puts, e) + if e == d then [p] else [];
    }
  }
}
