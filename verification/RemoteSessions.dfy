/** The remote sessions' callbacks over their shared tables. */
module RemoteSessions {
  import opened Remote

  lemma EvictStep(routes: map<string, string>, fifo: seq<string>)
    requires ROUTES_MAX < |fifo|
    ensures Evict(routes, fifo) == Evict(routes - {fifo[0]}, fifo[1..])
  {
  }

  class RemoteSessions {
    var remotes: map<string, bool>
    var routes: map<string, string>
    var fifo: seq<string>
    var log: seq<Output>  // everything posted or sent so far

    ghost function View(): Gate
      reads this
    {
      Gate(remotes, routes, fifo)
    }

    constructor ()
      ensures View() == Run([]).0 && log == Run([]).1
    {
      remotes, routes, fifo, log := map[], map[], [], [];
    }

    method RememberRoute(id: string, key: string)
      modifies this`routes, this`fifo
      ensures View() == Remember(old(View()), id, key)
    {
      if id !in routes {
        routes := routes[id := key];
        fifo := fifo + [id];
      }
      while ROUTES_MAX < |fifo|
        invariant Remember(old(View()), id, key) == Gate(remotes, Evict(routes, fifo).0, Evict(routes, fifo).1)
        decreases |fifo|
      {
        EvictStep(routes, fifo);
        routes := routes - {fifo[0]};
        fifo := fifo[1..];
      }
    }

    method RejectRemote(id: string, key: string)
      modifies this`routes, this`fifo, this`log
      ensures View() == Remember(old(View()), id, key) && log == old(log) + [Refusal(id)]
    {
      RememberRoute(id, key);
      log := log + [Refusal(id)];
    }

    /** A line from a connection; `id` is the id of the request made for it. */
    method OnLine(key: string, line: Line, id: string)
      modifies this
      ensures View() == Step(old(View()), Arrives(key, line, id)).0
      ensures log == old(log) + Step(old(View()), Arrives(key, line, id)).1
    {
      hide Remember, Whitelisted;
      if line.Malformed? {
        RejectRemote(id, key);
        return;
      }
      var op := line.op;
      var reject := false;
      if key !in remotes {
        remotes := remotes[key := false];
      }
      if op == HELLO {
        remotes := remotes[key := true];
      } else if !remotes[key] {
        reject := true;
      } else if !Whitelisted(op) {
        reject := true;
      }
      assert remotes == old(remotes)[key := op == HELLO || Greeted(old(View()), key)];
      if reject {
        RejectRemote(id, key);
        return;
      }
      RememberRoute(id, key);
      log := log + [Command(id, op)];
    }

    /** A message for the adapter: replies and errors go back where their requests came from. */
    method OnMessage(reply: bool, ref: string)
      modifies this`routes, this`log
      ensures View() == Step(old(View()), Message(reply, ref)).0
      ensures log == old(log) + Step(old(View()), Message(reply, ref)).1
    {
      if !reply {
        return;
      }
      if ref !in routes {
        return;
      }
      var key := routes[ref];
      routes := routes - {ref};
      log := log + [Sent(ClientId(key), ref)];
    }

    /** Forgets a connection: its handshake, and the routes of its open requests. */
    method OnDisconnect(key: string)
      modifies this`remotes, this`routes
      ensures View() == Step(old(View()), Lost(key)).0 && log == old(log)
    {
      remotes := remotes - {key};
      ghost var all := routes;
      ghost var done: set<string> := {};
      var ids := routes.Keys;
      while ids != {}
        invariant remotes == old(remotes) - {key}
        invariant done + ids == all.Keys && done !! ids && routes.Keys <= all.Keys
        invariant forall id :: id in routes ==> routes[id] == all[id]
        invariant forall id :: id in all ==> (id in routes <==> id in ids || all[id] != key)
        decreases |ids|
      {
        var id :| id in ids;
        if routes[id] == key {
          routes := routes - {id};
        }
        ids := ids - {id};
        done := done + {id};
      }
      assert routes == map id | id in all && all[id] != key :: all[id];
    }
  }
}
