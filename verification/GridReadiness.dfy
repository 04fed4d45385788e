/** One-shot grids end to end: the server's RunOnceGrid on any number of
    connections against the host's grid registry, in every interleaving. */
module GridReadiness {
  import opened RtdOnceKeys
  import opened RtdOnceRegistries
  import Runs = RtdOnceRuns

  datatype Ran = Payload(bytes: Bytes) | HandlerError(text: string)

  datatype Effect =
    | ShipGrid(key: Key, payload: Bytes)
    | PushUpdate(topic: TopicId, token: nat)
    | PushError(topic: TopicId, text: string)

  // ----- the server's sequence of sends

  /** What one run sends, given what it meets on the way: a context already done,
      the handler's outcome, and SendOnceGrid's answer. */
  function RunEffects(topic: TopicId, key: Key, done: Option<string>, ran: Ran, refused: Option<string>, token: nat): seq<Effect> {
    if done.Some? then [PushError(topic, done.value)]
    else if ran.HandlerError? then [PushError(topic, ran.text)]
    else if refused.Some? then [ShipGrid(key, ran.bytes), PushError(topic, refused.value)]
    else [ShipGrid(key, ran.bytes), PushUpdate(topic, token)]
  }

  predicate IsPush(e: Effect) { !e.ShipGrid? }

  function Pushes(es: seq<Effect>): nat {
    if es == [] then 0 else (if IsPush(es[0]) then 1 else 0) + Pushes(es[1..])
  }

  /** Exactly one update push per run, last; a ready token only behind its grid. */
  lemma OnePushLast(topic: TopicId, key: Key, done: Option<string>, ran: Ran, refused: Option<string>, token: nat)
    ensures var es := RunEffects(topic, key, done, ran, refused, token);
      && Pushes(es) == 1 && IsPush(es[|es| - 1])
      && (es[|es| - 1].PushUpdate? <==> done.None? && ran.Payload? && refused.None?)
      && (es[|es| - 1].PushUpdate? ==> es == [ShipGrid(key, ran.bytes), PushUpdate(topic, token)])
      && (es[|es| - 1].PushError? ==>
            && es[|es| - 1].topic == topic
            && Some(es[|es| - 1].text) == (if done.Some? then done else if ran.HandlerError? then Some(ran.text) else refused))
      && (es[0].ShipGrid? <==> done.None? && ran.Payload?)
  {
    var es := RunEffects(topic, key, done, ran, refused, token);
    if |es| == 2 {
      var tail := es[1..];
      assert tail == [es[1]] && tail[1..] == [];
      assert Pushes(tail) == 1 + Pushes(tail[1..]);
    } else {
      assert es[1..] == [];
    }
  }

  /** The manager's sends, in order; SendOnceGrid's k-th call answers refuses(k),
      an update push answers fails(k). */
  class Sender {
    const refuses: nat -> Option<string>
    const fails: nat -> Option<string>
    var readyOnceSeq: nat
    var log: seq<Effect>

    constructor (refuses: nat -> Option<string>, fails: nat -> Option<string>)
      ensures this.refuses == refuses && this.fails == fails && log == [] && readyOnceSeq == 0
    {
      this.refuses, this.fails := refuses, fails;
      readyOnceSeq, log := 0, [];
    }

    method ReadyToken() returns (token: nat)
      modifies this`readyOnceSeq
      ensures token == readyOnceSeq == old(readyOnceSeq) + 1
    {
      readyOnceSeq := readyOnceSeq + 1;
      token := readyOnceSeq;
    }

    method Send(e: Effect) returns (err: Option<string>)
      modifies this`log
      ensures log == old(log) + [e]
      ensures err == if e.ShipGrid? then refuses(|old(log)|) else fails(|old(log)|)
    {
      err := if e.ShipGrid? then refuses(|log|) else fails(|log|);
      log := log + [e];
    }

    method RunOnceGrid(handlerNil: bool, managerNil: bool, topic: TopicId, key: Key, done: Option<string>, ran: Ran)
        returns (err: Option<string>)
      modifies this
      ensures handlerNil || managerNil ==> err.Some? && log == old(log) && readyOnceSeq == old(readyOnceSeq)
      ensures !handlerNil && !managerNil ==>
        && log == old(log) + RunEffects(topic, key, done, ran, refuses(|old(log)|), readyOnceSeq)
        && err == fails(|log| - 1)
      ensures old(readyOnceSeq) <= readyOnceSeq
      ensures |log| > |old(log)| && log[|log| - 1].PushUpdate? ==> old(readyOnceSeq) < readyOnceSeq
    {
      if handlerNil {
        return Some("nil handler");
      }
      if managerNil {
        return Some("nil manager");
      }
      if done.Some? {
        err := Send(PushError(topic, done.value));
        return;
      }
      if ran.HandlerError? {
        err := Send(PushError(topic, ran.text));
        return;
      }
      var refused := Send(ShipGrid(key, ran.bytes));
      if refused.Some? {
        err := Send(PushError(topic, refused.value));
        return;
      }
      var token := ReadyToken();
      err := Send(PushUpdate(topic, token));
    }
  }

  // ----- server and host interleaved

  datatype Pc = Begin | Running | Sending(payload: Bytes) | Ready | Failing(text: string) | Finished

  /** One connection's run; done, ran and refused are what it has met so far. */
  datatype Conn = Conn(topic: TopicId, key: Key, pc: Pc, done: Option<string>, ran: Ran,
                       refused: Option<string>, token: nat, stored: bool, effects: seq<Effect>)

  /** owner says which connection a topic id currently stands for: Excel reuses
      topic ids. */
  datatype World = World(host: GridOnce, conns: map<nat, Conn>, owner: map<TopicId, nat>, readySeq: nat)

  datatype Action =
    | Connect(c: nat, topic: TopicId, key: Key)
    | Disconnect(topic: TopicId)
    | CheckContext(c: nat, done: Option<string>)
    | RunHandler(c: nat, ran: Ran)
    | HostStores(c: nat, now: nat)
    | SendReturns(c: nat, refused: Option<string>)
    | PushToken(c: nat)
    | PushFailure(c: nat, delivered: bool, now: nat)
    | ReadKey(key: Key, now: nat)
    | CalcEnded(now: nat)

  /** SendOnceGrid succeeds only once the host has stored; the host may also
      store a grid whose send has already been given up on. */
  predicate Enabled(w: World, a: Action) {
    match a
    case Connect(c, _, _) => c !in w.conns
    case CheckContext(c, _) => c in w.conns && w.conns[c].pc.Begin?
    case RunHandler(c, _) => c in w.conns && w.conns[c].pc.Running?
    case HostStores(c, _) =>
      c in w.conns && w.conns[c].done.None? && w.conns[c].ran.Payload? && w.conns[c].ran.bytes != []
      && !w.conns[c].pc.Begin? && !w.conns[c].pc.Running? && !w.conns[c].stored
    case SendReturns(c, refused) =>
      c in w.conns && w.conns[c].pc.Sending? && (refused.None? ==> w.conns[c].stored)
    case PushToken(c) => c in w.conns && w.conns[c].pc.Ready?
    case PushFailure(c, _, _) => c in w.conns && w.conns[c].pc.Failing?
    case Disconnect(_) => true
    case ReadKey(_, _) => true
    case CalcEnded(_) => true
  }

  const NO_MESSAGE := "#ERROR: rtd-once handler failed (no message)"

  /** What a cell paints for a pushed error. */
  function Shown(text: string): string { if text == "" then NO_MESSAGE else text }

  function Do(w: World, p: Policy, a: Action): World
    requires Enabled(w, a)
  {
    match a
    case Connect(c, t, k) =>
      w.(host := w.host.(topics := w.host.topics[t := k]), owner := w.owner[t := c],
         conns := w.conns[c := Conn(t, k, Begin, None, Payload([]), None, 0, false, [])])
    case Disconnect(t) => w.(host := w.host.(topics := w.host.topics - {t}), owner := w.owner - {t})
    case CheckContext(c, done) =>
      var x := w.conns[c];
      w.(conns := w.conns[c := x.(done := done, pc := if done.Some? then Failing(done.value) else Running)])
    case RunHandler(c, ran) =>
      var x := w.conns[c].(ran := ran);
      w.(conns := w.conns[c :=
        match ran
        case Payload(bytes) => x.(pc := Sending(bytes), effects := x.effects + [ShipGrid(x.key, bytes)])
        case HandlerError(text) => x.(pc := Failing(text))])
    case HostStores(c, now) =>
      var x := w.conns[c];
      w.(host := StoreGrid(w.host, x.key, x.ran.bytes, now), conns := w.conns[c := x.(stored := true)])
    case SendReturns(c, refused) =>
      var x := w.conns[c].(refused := refused);
      w.(conns := w.conns[c := x.(pc := if refused.Some? then Failing(refused.value) else Ready)])
    case PushToken(c) =>
      var x, token := w.conns[c], w.readySeq + 1;
      w.(readySeq := token, conns := w.conns[c :=
        x.(pc := Finished, token := token, effects := x.effects + [PushUpdate(x.topic, token)])])
    case PushFailure(c, delivered, now) =>
      var x := w.conns[c];
      w.(host := if delivered && x.topic in w.host.topics
                 then StoreGridError(w.host, w.host.topics[x.topic], Shown(x.pc.text), now) else w.host,
         conns := w.conns[c := x.(pc := Finished, effects := x.effects + [PushError(x.topic, x.pc.text)])])
    case ReadKey(k, now) => w.(host := TryGetGrid(w.host, p, k, now).1)
    case CalcEnded(now) => w.(host := ClearGrid(w.host, p, now))
  }

  /** Where a run stands agrees with what it has met and sent. */
  predicate ConnOk(x: Conn) {
    var sent := if x.done.None? && x.ran.Payload? then [ShipGrid(x.key, x.ran.bytes)] else [];
    match x.pc
    case Begin => x.done.None? && x.refused.None? && x.effects == [] && !x.stored
    case Running => x.done.None? && x.refused.None? && x.effects == [] && !x.stored
    case Sending(bytes) => x.done.None? && x.ran == Payload(bytes) && x.refused.None? && x.effects == sent
    case Ready => x.done.None? && x.ran.Payload? && x.refused.None? && x.stored && x.effects == sent
    case Failing(text) =>
      && x.effects == sent
      && text == (if x.done.Some? then x.done.value else if x.ran.HandlerError? then x.ran.text
                  else if x.refused.Some? then x.refused.value else text)
      && (x.done.Some? || x.ran.HandlerError? || x.refused.Some?)
    case Finished =>
      && x.effects == RunEffects(x.topic, x.key, x.done, x.ran, x.refused, x.token)
      && (x.done.None? && x.ran.Payload? && x.refused.None? ==> x.stored)
  }

  predicate Registered(w: World, c: nat) {
    c in w.conns && w.conns[c].topic in w.owner && w.owner[w.conns[c].topic] == c
  }

  ghost predicate Inv(w: World) {
    && (forall c :: c in w.conns ==> ConnOk(w.conns[c]))
    && (forall c :: Registered(w, c) ==>
          w.conns[c].topic in w.host.topics && w.host.topics[w.conns[c].topic] == w.conns[c].key)
    && (forall c :: Registered(w, c) && w.conns[c].stored ==> w.conns[c].key in w.host.results)
    && (forall t :: t in w.owner ==> w.owner[t] in w.conns)
  }

  /** Ready tokens never repeat, so Excel sees every delivery as a change. */
  ghost predicate TokensDistinct(w: World) {
    && (forall c :: c in w.conns ==> w.conns[c].token <= w.readySeq)
    && (forall c, d :: c in w.conns && d in w.conns && c != d && w.conns[c].token > 0 ==>
          w.conns[c].token != w.conns[d].token)
  }

  lemma {:induction false} TokensStayDistinct(w: World, p: Policy, acts: seq<Action>)
    requires TokensDistinct(w) && ValidRun(w, p, acts)
    ensures TokensDistinct(After(w, p, acts)) && w.readySeq <= After(w, p, acts).readySeq
    decreases |acts|
  {
    if acts != [] {
      assert TokensDistinct(Do(w, p, acts[0]));
      TokensStayDistinct(Do(w, p, acts[0]), p, acts[1..]);
    }
  }

  lemma LiveByTopic(topics: map<TopicId, Key>, t: TopicId)
    requires t in topics
    ensures Live(topics, topics[t])
  {
  }

  lemma ConnKeeps(w: World, p: Policy, a: Action)
    requires Enabled(w, a) && forall c :: c in w.conns ==> ConnOk(w.conns[c])
    ensures forall c :: c in Do(w, p, a).conns ==> ConnOk(Do(w, p, a).conns[c])
  {
  }

  lemma DoKeeps(w: World, p: Policy, a: Action)
    requires Inv(w) && Enabled(w, a)
    ensures Inv(Do(w, p, a))
  {
    ConnKeeps(w, p, a);
    var w' := Do(w, p, a);
    forall c | Registered(w', c)
      ensures w'.conns[c].topic in w'.host.topics && w'.host.topics[w'.conns[c].topic] == w'.conns[c].key
      ensures w'.conns[c].stored ==> w'.conns[c].key in w'.host.results
    {
      if c in w.conns {
        assert w'.conns[c].topic == w.conns[c].topic && w'.conns[c].key == w.conns[c].key;
        assert Registered(w, c);
        LiveByTopic(w.host.topics, w.conns[c].topic);
      }
    }
  }

  predicate ValidRun(w: World, p: Policy, acts: seq<Action>)
    decreases |acts|
  {
    acts == [] || (Enabled(w, acts[0]) && ValidRun(Do(w, p, acts[0]), p, acts[1..]))
  }

  function After(w: World, p: Policy, acts: seq<Action>): World
    requires ValidRun(w, p, acts)
    decreases |acts|
  {
    if acts == [] then w else After(Do(w, p, acts[0]), p, acts[1..])
  }

  lemma {:induction false} RunKeeps(w: World, p: Policy, acts: seq<Action>)
    requires Inv(w) && ValidRun(w, p, acts)
    ensures Inv(After(w, p, acts))
    decreases |acts|
  {
    if acts != [] {
      DoKeeps(w, p, acts[0]);
      RunKeeps(Do(w, p, acts[0]), p, acts[1..]);
    }
  }

  const START := World(GridOnce(map[], map[]), map[], map[], 0)

  /** In every interleaving: once a connection's ready token is out and while the
      connection stays registered, the recalc it triggers never misses. Its run
      has sent exactly what RunOnceGrid sends. */
  lemma ReadyMeansReadable(p: Policy, acts: seq<Action>, c: nat, now: nat)
    requires ValidRun(START, p, acts)
    requires var w := After(START, p, acts); c in w.conns && w.conns[c].pc.Finished?
    ensures var w := After(START, p, acts); var x := w.conns[c];
      && x.effects == RunEffects(x.topic, x.key, x.done, x.ran, x.refused, x.token)
      && (x.effects[|x.effects| - 1].PushUpdate? && Registered(w, c) ==> TryGetGrid(w.host, p, x.key, now).0 != Miss)
  {
    RunKeeps(START, p, acts);
    var w := After(START, p, acts);
    var x := w.conns[c];
    OnePushLast(x.topic, x.key, x.done, x.ran, x.refused, x.token);
    if Registered(w, c) {
      LiveByTopic(w.host.topics, x.topic);
    }
  }

  // ----- what the host serves, over whole runs

  /** The entry that a step stores under k: a grid of k's own, or the text of a
      failure pushed to a topic that then stands for k. */
  function Landed(w: World, a: Action, k: Key): Option<GridEntry>
    requires Enabled(w, a)
  {
    match a
    case HostStores(c, now) =>
      if w.conns[c].key == k then Some(GridEntry(w.conns[c].ran.bytes, "", now, false)) else None
    case PushFailure(c, delivered, now) =>
      var t, text := w.conns[c].topic, w.conns[c].pc.text;
      if delivered && t in w.host.topics && w.host.topics[t] == k
      then Some(GridEntry([], if text == "" then "#ERROR: rtd-once handler failed (no message)" else text, now, true))
      else None
    case _ => None
  }

  /** What a step is to the host's registry besides. */
  function Seen(a: Action): Option<Runs.Event> {
    match a
    case Connect(_, t, k) => Some(Runs.Register(t, k))
    case Disconnect(t) => Some(Runs.Unregister(t))
    case ReadKey(k, now) => Some(Runs.Read(k, now))
    case CalcEnded(now) => Some(Runs.CalcEnd(now))
    case _ => None
  }

  /** Whether the step drops entry e from under k, by the retention rule of the
      scalar registry. */
  ghost predicate Dropped(w: World, p: Policy, a: Action, k: Key, e: GridEntry) {
    Seen(a).Some? && Runs.Drops(w.host.topics, p, k, Entry(Variant([]), e.storedTick, e.transient), Seen(a).value)
  }

  function EntryAt(w: World, k: Key): Option<GridEntry> {
    if k in w.host.results then Some(w.host.results[k]) else None
  }

  /** One step on the host's registry, exactly. */
  lemma HostStep(w: World, p: Policy, a: Action, k: Key)
    requires Enabled(w, a)
    ensures EntryAt(Do(w, p, a), k) ==
      if Landed(w, a, k).Some? then Landed(w, a, k)
      else if k in w.host.results && !Dropped(w, p, a, k, w.host.results[k]) then Some(w.host.results[k])
      else None
    ensures Do(w, p, a).host.topics ==
      if Seen(a).Some? then Runs.TopicsAfter(w.host.topics, Seen(a).value) else w.host.topics
  {
    assert Live(w.host.topics, k) <==> exists t :: t in w.host.topics && w.host.topics[t] == k;
  }

  /** The last entry the run stores under k, or `before` if it stores none. */
  function LastLanded(w: World, p: Policy, acts: seq<Action>, k: Key, before: Option<GridEntry>): Option<GridEntry>
    requires ValidRun(w, p, acts)
    decreases |acts|
  {
    if acts == [] then before
    else
      LastLanded(Do(w, p, acts[0]), p, acts[1..], k, if Landed(w, acts[0], k).Some? then Landed(w, acts[0], k) else before)
  }

  /** What was there before matters only if the run stores nothing. */
  lemma {:induction false} LandedForgets(w: World, p: Policy, acts: seq<Action>, k: Key, before: Option<GridEntry>)
    requires ValidRun(w, p, acts) && LastLanded(w, p, acts, k, None).Some?
    ensures LastLanded(w, p, acts, k, before) == LastLanded(w, p, acts, k, None)
    decreases |acts|
  {
    if acts != [] && Landed(w, acts[0], k).None? {
      LandedForgets(Do(w, p, acts[0]), p, acts[1..], k, before);
    }
  }

  lemma {:induction false} ResidentLanded(w: World, p: Policy, acts: seq<Action>, k: Key)
    requires ValidRun(w, p, acts) && k in After(w, p, acts).host.results
    ensures LastLanded(w, p, acts, k, EntryAt(w, k)) == Some(After(w, p, acts).host.results[k])
    decreases |acts|
  {
    if acts != [] {
      var w1 := Do(w, p, acts[0]);
      HostStep(w, p, acts[0], k);
      ResidentLanded(w1, p, acts[1..], k);
      if EntryAt(w1, k).None? {
        LandedForgets(w1, p, acts[1..], k, EntryAt(w, k));
      }
    }
  }

  /** In every interleaving a read serves the last grid stored under its key, or the
      text of the last failure, and nothing else. */
  lemma ReadServesLastLanded(p: Policy, acts: seq<Action>, k: Key, now: nat)
    requires ValidRun(START, p, acts)
    ensures var out, last := TryGetGrid(After(START, p, acts).host, p, k, now).0, LastLanded(START, p, acts, k, None);
      out != Miss ==> last.Some? && out == if last.value.transient then Error(last.value.errorText) else Result(last.value.bytes)
  {
    if k in After(START, p, acts).host.results {
      ResidentLanded(START, p, acts, k);
    }
  }

  /** c stays registered, and nothing is stored under its key. */
  ghost predicate Undisturbed(w: World, p: Policy, acts: seq<Action>, c: nat)
    requires ValidRun(w, p, acts)
    decreases |acts|
  {
    Registered(w, c) &&
    (acts == [] || (Landed(w, acts[0], w.conns[c].key).None? && Undisturbed(Do(w, p, acts[0]), p, acts[1..], c)))
  }

  /** The grid a connection has delivered is what every read of its key gets, past
      any other traffic, until the connection goes or something else is stored. */
  lemma {:induction false} DeliveredIsServed(w: World, p: Policy, acts: seq<Action>, c: nat, e: GridEntry, now: nat)
    requires Inv(w) && ValidRun(w, p, acts) && Undisturbed(w, p, acts, c)
    requires EntryAt(w, w.conns[c].key) == Some(e) && !e.transient
    ensures TryGetGrid(After(w, p, acts).host, p, w.conns[c].key, now).0 == Result(e.bytes)
    decreases |acts|
  {
    LiveByTopic(w.host.topics, w.conns[c].topic);
    if acts != [] {
      var w1 := Do(w, p, acts[0]);
      DoKeeps(w, p, acts[0]);
      HostStep(w, p, acts[0], w.conns[c].key);
      assert w1.conns[c].key == w.conns[c].key;
      DeliveredIsServed(w1, p, acts[1..], c, e, now);
    }
  }

  /** The same from the moment the host stores it. */
  lemma GridIsServed(before: seq<Action>, p: Policy, c: nat, at: nat, acts: seq<Action>, now: nat)
    requires ValidRun(START, p, before) && Enabled(After(START, p, before), HostStores(c, at))
    requires var w := Do(After(START, p, before), p, HostStores(c, at)); ValidRun(w, p, acts) && Undisturbed(w, p, acts, c)
    ensures var w := After(START, p, before);
      TryGetGrid(After(Do(w, p, HostStores(c, at)), p, acts).host, p, w.conns[c].key, now).0 == Result(w.conns[c].ran.bytes)
  {
    RunKeeps(START, p, before);
    var w := After(START, p, before);
    DoKeeps(w, p, HostStores(c, at));
    HostStep(w, p, HostStores(c, at), w.conns[c].key);
    DeliveredIsServed(Do(w, p, HostStores(c, at)), p, acts, c, Landed(w, HostStores(c, at), w.conns[c].key).value, now);
  }
}
