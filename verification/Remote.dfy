/** The remote-control sessions: the handshake gate, the whitelist, and the routes by which replies find their
    way back. */
module Remote {
  import opened Results

  /** A line from a connection: no command at all, or a command by its name. */
  datatype Line = Malformed | Op(op: string)

  /** A line with the id its request gets; a message for the adapter, which is a reply or not; a lost connection. */
  datatype Event =
    | Arrives(key: string, line: Line, id: string)
    | Message(reply: bool, ref: string)
    | Lost(key: string)

  /** A command posted to the engines, a refusal posted as a reply, a reply sent to a client. */
  datatype Output =
    | Command(id: string, op: string)
    | Refusal(id: string)
    | Sent(client: string, ref: string)

  /** Which connections have said hello, where replies go, and the order in which routes were made. */
  datatype Gate = Gate(remotes: map<string, bool>, routes: map<string, string>, fifo: seq<string>)

  const ROUTES_MAX: nat := 512

  const HELLO: string := "remote.hello"

  predicate HasPrefix(op: string, prefix: string) {
    |prefix| < |op| && op[..|prefix|] == prefix
  }

  /** The commands a remote may give. */
  predicate Whitelisted(op: string) {
    || HasPrefix(op, "transport.") || HasPrefix(op, "playlist.")
    || op == "scene.recall" || op == "sys.set_volume" || op == "sys.ping"
  }

  /** The place of the last colon, if any. */
  function LastColon(key: string, n: nat): Option<nat>
    requires n <= |key|
    ensures LastColon(key, n).Some? ==> LastColon(key, n).value < n
  {
    if n == 0 then None else if key[n - 1] == ':' then Some(n - 1) else LastColon(key, n - 1)
  }

  /** The adapter's client of a connection: what follows the last colon. */
  function ClientId(key: string): string {
    var colon := LastColon(key, |key|);
    if colon.Some? then key[colon.value + 1..] else key
  }

  /** The commands a remote may give, one by one: any transport or playlist command, and three more. */
  ghost predicate Allowed(op: string) {
    || (exists rest: string :: rest != "" && op == "transport." + rest)
    || (exists rest: string :: rest != "" && op == "playlist." + rest)
    || op in {"scene.recall", "sys.set_volume", "sys.ping"}
  }

  lemma PrefixIs(op: string, prefix: string)
    ensures HasPrefix(op, prefix) <==> exists rest: string :: rest != "" && op == prefix + rest
  {
    if HasPrefix(op, prefix) {
      assert op == prefix + op[|prefix|..];
    }
  }

  lemma WhitelistIs(op: string)
    ensures Whitelisted(op) <==> Allowed(op)
  {
    hide HasPrefix;
    PrefixIs(op, "transport.");
    PrefixIs(op, "playlist.");
  }

  /** The client a key names: the part behind its last colon, or all of a key without colons. */
  ghost predicate Names(key: string, client: string) {
    ':' !in client && (key == client || exists host: string :: key == host + ":" + client)
  }

  lemma {:induction false} LastColonIs(key: string, n: nat)
    requires n <= |key|
    ensures var r := LastColon(key, n);
      && (r.Some? ==> key[r.value] == ':')
      && forall k :: (if r.Some? then r.value < k else 0 <= k) && k < n ==> key[k] != ':'
  {
    if n != 0 && key[n - 1] != ':' {
      LastColonIs(key, n - 1);
    }
  }

  /** Every key names one client. */
  lemma ClientIdIs(key: string, client: string)
    ensures Names(key, client) <==> client == ClientId(key)
  {
    hide LastColon;
    LastColonIs(key, |key|);
    var colon := LastColon(key, |key|);
    if colon.Some? {
      assert key == key[..colon.value] + ":" + key[colon.value + 1..];
    }
    if Names(key, client) && key != client {
      var host :| key == host + ":" + client;
      assert key[|host|] == ':';
      forall k | |host| < k < |key|
        ensures key[k] != ':'
      {
        assert key[k] == client[k - |host| - 1];
      }
      assert colon == Some(|host|);
      assert key[|host| + 1..] == client;
    }
  }

  // ---- one event ----

  /** Forgets the oldest routes beyond the limit. */
  function Evict(routes: map<string, string>, fifo: seq<string>): (map<string, string>, seq<string>)
    decreases |fifo|
  {
    if |fifo| <= ROUTES_MAX then (routes, fifo) else Evict(routes - {fifo[0]}, fifo[1..])
  }

  function Remember(g: Gate, id: string, key: string): Gate {
    var (routes, fifo) :=
      if id in g.routes then Evict(g.routes, g.fifo) else Evict(g.routes[id := key], g.fifo + [id]);
    Gate(g.remotes, routes, fifo)
  }

  predicate Greeted(g: Gate, key: string) {
    key in g.remotes && g.remotes[key]
  }

  function Arrive(g: Gate, key: string, line: Line, id: string): (Gate, seq<Output>) {
    match line
    case Malformed => (Remember(g, id, key), [Refusal(id)])
    case Op(op) =>
      var seen := g.(remotes := g.remotes[key := op == HELLO || Greeted(g, key)]);
      if op == HELLO || (Greeted(g, key) && Whitelisted(op)) then (Remember(seen, id, key), [Command(id, op)])
      else (Remember(seen, id, key), [Refusal(id)])
  }

  function Deliver(g: Gate, reply: bool, ref: string): (Gate, seq<Output>) {
    if reply && ref in g.routes then (g.(routes := g.routes - {ref}), [Sent(ClientId(g.routes[ref]), ref)])
    else (g, [])
  }

  /** Forgets a connection. */
  function Lose(g: Gate, key: string): Gate {
    Gate(g.remotes - {key}, map id | id in g.routes && g.routes[id] != key :: g.routes[id], g.fifo)
  }

  function Step(g: Gate, e: Event): (Gate, seq<Output>) {
    match e
    case Arrives(key, line, id) => Arrive(g, key, line, id)
    case Message(reply, ref) => Deliver(g, reply, ref)
    case Lost(key) => (Lose(g, key), [])
  }

  function Run(events: seq<Event>): (Gate, seq<Output>) {
    if events == [] then (Gate(map[], map[], []), [])
    else
      var (before, log) := Run(events[..|events| - 1]);
      var (after, out) := Step(before, events[|events| - 1]);
      (after, log + out)
  }

  // ---- who has said hello ----

  /** The connection has said hello since it was last lost. */
  predicate SaidHello(events: seq<Event>, key: string) {
    events != [] &&
    var e := events[|events| - 1];
    if e == Lost(key) then false
    else (e.Arrives? && e.key == key && e.line == Op(HELLO)) || SaidHello(events[..|events| - 1], key)
  }

  lemma {:induction false} GreetedIffSaidHello(events: seq<Event>, key: string)
    ensures Greeted(Run(events).0, key) <==> SaidHello(events, key)
  {
    hide Remember;
    if events != [] {
      GreetedIffSaidHello(events[..|events| - 1], key);
      RememberKeepsRemotes();
    }
  }

  lemma RememberKeepsRemotes()
    ensures forall g: Gate, id, key :: Remember(g, id, key).remotes == g.remotes
  {
  }

  /** A line is passed on exactly when it is a hello, or an allowed command of a connection that has said hello since
      it was last lost. Every other line is refused. */
  lemma PassedIff(events: seq<Event>, key: string, line: Line, id: string)
    ensures var out := Step(Run(events).0, Arrives(key, line, id)).1;
      out == if line.Op? && (line.op == "remote.hello" || (SaidHello(events, key) && Allowed(line.op)))
             then [Command(id, line.op)] else [Refusal(id)]
  {
    hide Remember, Whitelisted, Allowed;
    GreetedIffSaidHello(events, key);
    if line.Op? {
      WhitelistIs(line.op);
    }
  }

  // ---- what becomes of requests ----

  datatype Status = Open | Answered | Dropped

  datatype Request = Request(id: string, key: string, status: Status)

  /** The first of the requests that still have their routes. */
  function WindowStart(n: nat): nat {
    if n <= ROUTES_MAX then 0 else n - ROUTES_MAX
  }

  predicate Live(h: seq<Request>, i: int) {
    WindowStart(|h|) <= i < |h| && h[i].status == Open
  }

  function Settle(h: seq<Request>, e: Event): (r: seq<Request>)
    requires !e.Arrives?
    ensures |r| == |h|
  {
    seq(|h|, i requires 0 <= i < |h| =>
      if e.Message? && e.reply && h[i].id == e.ref && Live(h, i) then h[i].(status := Answered)
      else if e.Lost? && h[i].key == e.key && h[i].status == Open then h[i].(status := Dropped)
      else h[i])
  }

  /** Every request made, in order, and what became of it: answered by the first reply to it that came while its
      route was among the last ones made and its connection was not lost. */
  function History(events: seq<Event>): seq<Request> {
    if events == [] then []
    else
      Recorded(History(events[..|events| - 1]), events[|events| - 1])
  }

  ghost predicate Distinct(h: seq<Request>) {
    forall i, j :: 0 <= i < j < |h| ==> h[i].id != h[j].id
  }

  /** Request ids are never used twice. */
  ghost predicate FreshIds(events: seq<Event>) {
    forall i, j :: 0 <= i < j < |events| && events[i].Arrives? && events[j].Arrives? ==> events[i].id != events[j].id
  }

  /** The routes are those of the requests still open among the last ones made. */
  ghost predicate Tracks(g: Gate, h: seq<Request>) {
    var w := WindowStart(|h|);
    && |g.fifo| == |h| - w && (forall i :: 0 <= i < |g.fifo| ==> g.fifo[i] == h[w + i].id)
    && (forall i :: Live(h, i) ==> h[i].id in g.routes && g.routes[h[i].id] == h[i].key)
    && (forall id :: id in g.routes ==> exists i :: Live(h, i) && h[i].id == id)
  }

  lemma RememberNew(g: Gate, id: string, key: string)
    requires id !in g.routes && |g.fifo| <= ROUTES_MAX
    ensures var routes, fifo := g.routes[id := key], g.fifo + [id];
      Remember(g, id, key) == if ROUTES_MAX < |fifo| then Gate(g.remotes, routes - {fifo[0]}, fifo[1..])
                              else Gate(g.remotes, routes, fifo)
  {
    var routes, fifo := g.routes[id := key], g.fifo + [id];
    if ROUTES_MAX < |fifo| {
      assert |fifo[1..]| == ROUTES_MAX;
      assert Evict(routes, fifo) == Evict(routes - {fifo[0]}, fifo[1..]);
    }
  }

  ghost predicate Unused(h: seq<Request>, id: string) {
    forall i :: 0 <= i < |h| ==> h[i].id != id
  }

  /** The requests that keep their routes when one more is made. */
  lemma LiveAfter(h: seq<Request>, r: Request, i: int)
    requires r.status == Open
    ensures Live(h + [r], i) <==> i == |h| || (Live(h, i) && (ROUTES_MAX <= |h| ==> i != WindowStart(|h|)))
  {
  }

  lemma RememberRoutes(g: Gate, h: seq<Request>, id: string, key: string, i: int)
    requires Tracks(g, h) && Distinct(h) && Unused(h, id) && Live(h + [Request(id, key, Open)], i)
    ensures var r, g' := (h + [Request(id, key, Open)])[i], Remember(g, id, key);
      r.id in g'.routes && g'.routes[r.id] == r.key
  {
    hide Remember;
    LiveAfter(h, Request(id, key, Open), i);
    RememberNew(g, id, key);
  }

  lemma RememberLive(g: Gate, h: seq<Request>, id: string, key: string, x: string)
    requires Tracks(g, h) && Distinct(h) && Unused(h, id) && x in Remember(g, id, key).routes
    ensures var h' := h + [Request(id, key, Open)]; exists i :: Live(h', i) && h'[i].id == x
  {
    hide Remember;
    RememberNew(g, id, key);
    var h' := h + [Request(id, key, Open)];
    if x == id {
      LiveAfter(h, Request(id, key, Open), |h|);
      assert h'[|h|].id == x;
    } else {
      var i :| Live(h, i) && h[i].id == x;
      LiveAfter(h, Request(id, key, Open), i);
      assert h'[i].id == x;
    }
  }

  lemma RememberTracks(g: Gate, h: seq<Request>, id: string, key: string)
    requires Tracks(g, h) && Distinct(h) && Unused(h, id)
    ensures Tracks(Remember(g, id, key), h + [Request(id, key, Open)])
  {
    hide Remember, Unused, Distinct;
    RememberFifo(g, h, id, key);
    var h' := h + [Request(id, key, Open)];
    var g' := Remember(g, id, key);
    forall i | Live(h', i)
      ensures h'[i].id in g'.routes && g'.routes[h'[i].id] == h'[i].key
    {
      RememberRoutes(g, h, id, key, i);
    }
    forall x | x in g'.routes
      ensures exists i :: Live(h', i) && h'[i].id == x
    {
      RememberLive(g, h, id, key, x);
    }
  }

  lemma RememberFifo(g: Gate, h: seq<Request>, id: string, key: string)
    requires Tracks(g, h) && Unused(h, id)
    ensures var h', fifo := h + [Request(id, key, Open)], Remember(g, id, key).fifo;
      |fifo| == |h'| - WindowStart(|h'|) && forall i :: 0 <= i < |fifo| ==> fifo[i] == h'[WindowStart(|h'|) + i].id
  {
    hide Remember;
    RememberNew(g, id, key);
  }

  lemma DeliverTracks(g: Gate, h: seq<Request>, reply: bool, ref: string)
    requires Tracks(g, h) && Distinct(h)
    ensures Tracks(Deliver(g, reply, ref).0, Settle(h, Message(reply, ref)))
  {
    var g', h' := Deliver(g, reply, ref).0, Settle(h, Message(reply, ref));
    forall i | Live(h', i)
      ensures h'[i].id in g'.routes && g'.routes[h'[i].id] == h'[i].key
    {
      assert Live(h, i);
    }
    forall x | x in g'.routes
      ensures exists i :: Live(h', i) && h'[i].id == x
    {
      var i :| Live(h, i) && h[i].id == x;
      assert Live(h', i) && h'[i].id == x;
    }
  }

  lemma LoseTracks(g: Gate, h: seq<Request>, key: string)
    requires Tracks(g, h) && Distinct(h)
    ensures Tracks(Lose(g, key), Settle(h, Lost(key)))
  {
    var g', h' := Lose(g, key), Settle(h, Lost(key));
    forall i | Live(h', i)
      ensures h'[i].id in g'.routes && g'.routes[h'[i].id] == h'[i].key
    {
      assert Live(h, i);
    }
    forall x | x in g'.routes
      ensures exists i :: Live(h', i) && h'[i].id == x
    {
      var i :| Live(h, i) && h[i].id == x;
      assert Live(h', i) && h'[i].id == x;
    }
  }

  lemma {:induction false} HistoryIds(events: seq<Event>, id: string)
    requires forall i :: 0 <= i < |events| && events[i].Arrives? ==> events[i].id != id
    ensures forall i :: 0 <= i < |History(events)| ==> History(events)[i].id != id
  {
    if events != [] {
      HistoryIds(events[..|events| - 1], id);
    }
  }

  lemma {:induction false} RunTracks(events: seq<Event>)
    requires FreshIds(events)
    ensures Distinct(History(events)) && Tracks(Run(events).0, History(events))
  {
    hide Remember, Deliver, Lose, Tracks;
    if events == [] {
      EmptyTracks();
    } else {
      var init, e := events[..|events| - 1], events[|events| - 1];
      assert forall i, j :: 0 <= i < j < |init| ==> init[i] == events[i] && init[j] == events[j];
      RunTracks(init);
      var g, h := Run(init).0, History(init);
      match e
      case Arrives(key, line, id) =>
        HistoryIds(init, id);
        RememberTracks(g, h, id, key);
        var seen: map<string, bool> :| Run(events).0 == Remember(g.(remotes := seen), id, key);
        SameRoutes(g, seen, h);
        RememberTracks(g.(remotes := seen), h, id, key);
      case Message(reply, ref) =>
        DeliverTracks(g, h, reply, ref);
      case Lost(key) =>
        LoseTracks(g, h, key);
    }
  }

  lemma EmptyTracks()
    ensures Tracks(Gate(map[], map[], []), [])
  {
  }

  lemma SameRoutes(g: Gate, seen: map<string, bool>, h: seq<Request>)
    requires Tracks(g, h)
    ensures Tracks(g.(remotes := seen), h)
  {
  }

  /** Every route is in the queue that evicts it, and the queue is within its limit. */
  ghost predicate Bounded(g: Gate) {
    |g.fifo| <= ROUTES_MAX && forall id :: id in g.routes ==> id in g.fifo
  }

  lemma {:induction false} EvictBounds(routes: map<string, string>, fifo: seq<string>)
    requires forall id :: id in routes ==> id in fifo
    ensures var (r, f) := Evict(routes, fifo);
      |f| <= ROUTES_MAX && forall id :: id in r ==> id in f
    decreases |fifo|
  {
    if ROUTES_MAX < |fifo| {
      forall id | id in routes - {fifo[0]}
        ensures id in fifo[1..]
      {
      }
      EvictBounds(routes - {fifo[0]}, fifo[1..]);
    }
  }

  lemma RememberBounds(g: Gate, id: string, key: string)
    requires Bounded(g)
    ensures Bounded(Remember(g, id, key))
  {
    hide Evict;
    EvictBounds(g.routes, g.fifo);
    EvictBounds(g.routes[id := key], g.fifo + [id]);
  }

  lemma StepBounds(g: Gate, e: Event)
    requires Bounded(g)
    ensures Bounded(Step(g, e).0)
  {
    hide Remember, Whitelisted, ClientId;
    if e.Arrives? {
      forall seen: map<string, bool>
        ensures Bounded(Remember(g.(remotes := seen), e.id, e.key))
      {
        RememberBounds(g.(remotes := seen), e.id, e.key);
      }
      RememberBounds(g, e.id, e.key);
    }
  }

  lemma {:induction false} RunBounds(events: seq<Event>)
    ensures Bounded(Run(events).0)
  {
    hide Step;
    if events != [] {
      RunBounds(events[..|events| - 1]);
      StepBounds(Run(events[..|events| - 1]).0, events[|events| - 1]);
    }
  }

  /** Over any run, ids used again included, the route table stays within its limit and its keys within the queue
      that evicts them. */
  lemma RoutesBounded(events: seq<Event>)
    ensures var g := Run(events).0;
      && |g.fifo| <= ROUTES_MAX && |g.routes| <= ROUTES_MAX && (forall id :: id in g.routes ==> id in g.fifo)
  {
    RunBounds(events);
    var g := Run(events).0;
    KeysWithin(g.routes.Keys, g.fifo);
    assert |g.routes| == |g.routes.Keys|;
  }

  lemma {:induction false} KeysWithin(keys: set<string>, s: seq<string>)
    requires forall k :: k in keys ==> k in s
    ensures |keys| <= |s|
    decreases |s|
  {
    if s == [] {
      assert keys == {};
    } else {
      KeysWithin(keys - {s[0]}, s[1..]);
    }
  }

  /** A reply is sent exactly when it answers a request that is open and among the last 512 made, and then to the
      client of the connection that made it. */
  lemma SentIff(events: seq<Event>, ref: string, client: string)
    requires FreshIds(events)
    ensures var h := History(events);
      Step(Run(events).0, Message(true, ref)).1 == [Sent(client, ref)] <==>
      exists i :: 0 <= i < |h| && |h| - 512 <= i && h[i].status == Open && h[i].id == ref && Names(h[i].key, client)
  {
    hide ClientId, Names;
    RunTracks(events);
    var g, h := Run(events).0, History(events);
    if ref in g.routes {
      var i :| Live(h, i) && h[i].id == ref;
      ClientIdIs(h[i].key, client);
      assert Step(g, Message(true, ref)).1 == [Sent(ClientId(h[i].key), ref)];
      forall j | Live(h, j) && h[j].id == ref
        ensures j == i
      {
      }
    }
  }

  /** How often a reply was sent. */
  function TimesSent(log: seq<Output>, ref: string): nat {
    if log == [] then 0
    else
      var o := log[|log| - 1];
      TimesSent(log[..|log| - 1], ref) + if o.Sent? && o.ref == ref then 1 else 0
  }

  lemma TimesSentNext(log: seq<Output>, out: seq<Output>, ref: string)
    requires |out| <= 1
    ensures TimesSent(log + out, ref) ==
      TimesSent(log, ref) + if out != [] && out[0].Sent? && out[0].ref == ref then 1 else 0
  {
    if out == [] {
      assert log + out == log;
    } else {
      assert (log + out)[..|log + out| - 1] == log;
    }
  }

  ghost predicate AnsweredRequest(h: seq<Request>, ref: string) {
    exists i :: 0 <= i < |h| && h[i].id == ref && h[i].status == Answered
  }

  /** No request is answered twice: a reply was sent once for each answered request, and for no other. */
  lemma {:induction false} SentOnce(events: seq<Event>, ref: string)
    requires FreshIds(events)
    ensures TimesSent(Run(events).1, ref) == if AnsweredRequest(History(events), ref) then 1 else 0
  {
    hide Tracks, Distinct;
    if events != [] {
      var init, e := events[..|events| - 1], events[|events| - 1];
      assert forall i, j :: 0 <= i < j < |init| ==> init[i] == events[i] && init[j] == events[j];
      SentOnce(init, ref);
      RunTracks(init);
      StepAnswers(Run(init).0, History(init), e, ref);
      TimesSentNext(Run(init).1, Step(Run(init).0, e).1, ref);
    }
  }

  /** The history after one more event. */
  function Recorded(h: seq<Request>, e: Event): seq<Request> {
    if e.Arrives? then h + [Request(e.id, e.key, Open)] else Settle(h, e)
  }

  lemma StepAnswers(g: Gate, h: seq<Request>, e: Event, ref: string)
    requires Tracks(g, h) && Distinct(h)
    ensures var out := Step(g, e).1; var h' := Recorded(h, e);
      && |out| <= 1
      && (out != [] && out[0].Sent? && out[0].ref == ref <==> AnsweredRequest(h', ref) && !AnsweredRequest(h, ref))
      && (AnsweredRequest(h, ref) ==> AnsweredRequest(h', ref))
  {
    hide Remember, ClientId;
    var h' := Recorded(h, e);
    forall i | 0 <= i < |h| && h[i].status == Answered
      ensures h'[i] == h[i]
    {
    }
    if e.Arrives? {
      forall i | 0 <= i < |h'| && h'[i].status == Answered
        ensures i < |h| && h[i] == h'[i]
      {
      }
    } else if e.Message? && e.reply && e.ref in g.routes {
      var i :| Live(h, i) && h[i].id == e.ref;
      assert h'[i].status == Answered;
      forall j | 0 <= j < |h'| && h'[j].status == Answered && j != i
        ensures h[j] == h'[j] && h[j].id != e.ref
      {
      }
    } else {
      forall i | 0 <= i < |h'| && h'[i].status == Answered
        ensures h[i] == h'[i]
      {
        assert Live(h, i) ==> h[i].id in g.routes;
      }
    }
  }
}
