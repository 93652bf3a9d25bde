/** One run of the network module and what it leaves behind, against a daemon that refuses
    to connect a container twice or to remove a network in use. */
module DockerRuns {
  import opened Strings
  import opened DockerNetwork

  /** A run ends with `ok`, or is cut short by a call the daemon refuses. */
  datatype Outcome = Outcome(net: Option<Net>, ok: bool, changed: bool)

  datatype Connecting = Connecting(members: set<string>, ok: bool)

  /** The references to connect: by default whoever is on the network already. */
  ghost predicate Targets(p: Params, net: Option<Net>, refs: seq<string>) {
    if p.connected == [] && net.Some? then Distinct(refs) && Elems(refs) == net.value.members
    else refs == p.connected
  }

  /** `connect_containers`: everything not in the snapshot is connected, in order. */
  function ConnectAll(world: World, snapshot: set<string>, members: set<string>, refs: seq<string>): Connecting {
    if refs == [] then Connecting(members, true)
    else
      var c := ConnectAll(world, snapshot, members, refs[..|refs| - 1]);
      var r := refs[|refs| - 1];
      if !c.ok || r in snapshot then c
      else if r !in world || world[r] in c.members then Connecting(c.members, false)
      else Connecting(c.members + {world[r]}, true)
  }

  predicate Recreates(p: Params, net: Option<Net>) { net.Some? && (p.force || Different(p, net.value.config)) }

  /** Names connected according to the snapshot that `connect_containers` looks at. */
  function Snapshot(p: Params, net: Option<Net>): set<string> {
    if net.None? || Recreates(p, net) then {} else net.value.members
  }

  predicate AllIn(refs: seq<string>, s: set<string>) { forall r | r in refs :: r in s }

  /** A run with state `present` outside check mode; `created` is what the daemon reports of
      a network created with the settings. */
  function PresentRun(world: World, names: map<string, string>, created: Config, p: Params, refs: seq<string>,
                      net: Option<Net>): Outcome
  {
    if net.None? || Recreates(p, net) then
      if !Buildable(names, p) then Outcome(None, false, net.Some?)
      else
        var c := ConnectAll(world, {}, {}, refs);
        Outcome(Some(Net(created, c.members)), c.ok, true)
    else
      var prior := net.value.members;
      var c := ConnectAll(world, prior, prior, refs);
      var gone := if p.appends || !c.ok then {} else prior - Elems(refs);
      Outcome(Some(Net(net.value.config, c.members - gone)), c.ok, c.members != prior || gone != {})
  }

  function AbsentRun(net: Option<Net>): Outcome { Outcome(None, true, net.Some?) }

  // ---------- the calls of a run ----------

  /** What a run asks of the daemon; `Look` only reads the network. */
  datatype Call = Look | CreateCall | RemoveCall | ConnectCall(ref: string) | DisconnectCall(name: string)

  /** The calls of `connect_containers`, the refused one included. */
  function Connects(world: World, snapshot: set<string>, members: set<string>, refs: seq<string>): seq<Call> {
    if refs == [] then []
    else
      var before, r := refs[..|refs| - 1], refs[|refs| - 1];
      Connects(world, snapshot, members, before)
      + (if !ConnectAll(world, snapshot, members, before).ok || r in snapshot then [] else [ConnectCall(r)])
  }

  /** Each of these containers is disconnected once, in some order. */
  ghost predicate Disconnects(calls: seq<Call>, leaving: set<string>) {
    && Distinct(calls)
    && (forall x | x in calls :: x.DisconnectCall? && x.name in leaving)
    && (forall n | n in leaving :: DisconnectCall(n) in calls)
  }

  predicate CallsForNetwork(p: Params, net: Option<Net>) { net.None? || Recreates(p, net) }

  /** Who is disconnected: everyone before the network is created again, and in the end, unless
      a call was refused or `appends` is given, whoever was not asked for. */
  ghost predicate Orders(world: World, names: map<string, string>, p: Params, refs: seq<string>, net: Option<Net>,
                         emptied: seq<Call>, left: seq<Call>)
  {
    && Disconnects(emptied, if Recreates(p, net) then net.value.members else {})
    && Disconnects(left, if GoesThrough(world, names, p, refs, net) && !p.appends then Snapshot(p, net) - Elems(refs) else {})
  }

  predicate GoesThrough(world: World, names: map<string, string>, p: Params, refs: seq<string>, net: Option<Net>) {
    BuildsIfNeeded(names, p, net) && ConnectAll(world, Snapshot(p, net), Snapshot(p, net), refs).ok
  }

  /** The calls until there is a network to connect to. */
  function RenewCalls(names: map<string, string>, p: Params, net: Option<Net>, emptied: seq<Call>): seq<Call> {
    (if Recreates(p, net) then [Look] + emptied + [RemoveCall] else [])
    + (if CallsForNetwork(p, net) && Buildable(names, p) then [CreateCall, Look] else [])
  }

  /** The calls in order, a last look included if nothing was refused. */
  function CallsOf(world: World, names: map<string, string>, p: Params, refs: seq<string>, net: Option<Net>,
                   emptied: seq<Call>, left: seq<Call>): seq<Call>
  {
    RenewCalls(names, p, net, emptied)
    + (if BuildsIfNeeded(names, p, net) then Connects(world, Snapshot(p, net), Snapshot(p, net), refs) else [])
    + left + (if GoesThrough(world, names, p, refs, net) then [Look] else [])
  }

  /** The calls of a run with state `present` after it has taken the snapshot: emptying and
      removing a network that is to be created again, creating it, connecting, disconnecting. */
  ghost predicate RunCalls(world: World, names: map<string, string>, p: Params, refs: seq<string>, net: Option<Net>,
                           calls: seq<Call>)
  {
    exists emptied, left ::
      Orders(world, names, p, refs, net, emptied, left) && calls == CallsOf(world, names, p, refs, net, emptied, left)
  }

  lemma {:induction false} NoConnects(world: World, snapshot: set<string>, members: set<string>, refs: seq<string>)
    requires ConnectAll(world, snapshot, members, refs).ok
    ensures Connects(world, snapshot, members, refs) == [] <==> ConnectAll(world, snapshot, members, refs).members == members
    ensures members <= ConnectAll(world, snapshot, members, refs).members
  {
    if refs != [] {
      NoConnects(world, snapshot, members, refs[..|refs| - 1]);
    }
  }

  lemma NoneDisconnected(calls: seq<Call>, leaving: set<string>)
    requires Disconnects(calls, leaving)
    ensures calls == [] <==> leaving == {}
  {
    if calls != [] { assert calls[0] in calls; }
  }

  // ---------- what the calls do ----------

  /** What the daemon makes of a call; `None` where it refuses. */
  function Answer(world: World, created: Config, net: Option<Net>, call: Call): Option<Option<Net>> {
    match call
    case Look => Some(net)
    case CreateCall => if net.None? then Some(Some(Net(created, {}))) else None
    case RemoveCall => if net.Some? && net.value.members == {} then Some(None) else None
    case ConnectCall(r) =>
      if net.Some? && r in world && world[r] !in net.value.members
      then Some(Some(Net(net.value.config, net.value.members + {world[r]}))) else None
    case DisconnectCall(n) =>
      if net.Some? && n in net.value.members then Some(Some(Net(net.value.config, net.value.members - {n}))) else None
  }

  datatype Replayed = Replayed(net: Option<Net>, ok: bool)

  /** Calls in order, up to the first one refused. */
  function Replay(world: World, created: Config, net: Option<Net>, calls: seq<Call>): Replayed {
    if calls == [] then Replayed(net, true)
    else
      var before := Replay(world, created, net, calls[..|calls| - 1]);
      if !before.ok then before
      else
        match Answer(world, created, before.net, calls[|calls| - 1])
        case None => Replayed(before.net, false)
        case Some(after) => Replayed(after, true)
  }

  lemma {:induction false} ReplayAppend(world: World, created: Config, net: Option<Net>, a: seq<Call>, b: seq<Call>)
    ensures var first := Replay(world, created, net, a);
      Replay(world, created, net, a + b) == if first.ok then Replay(world, created, first.net, b) else first
  {
    hide Answer;
    if b == [] {
      assert a + b == a;
    } else {
      assert (a + b)[..|a + b| - 1] == a + b[..|b| - 1];
      ReplayAppend(world, created, net, a, b[..|b| - 1]);
    }
  }

  lemma ReplayOne(world: World, created: Config, net: Option<Net>, call: Call)
    ensures Replay(world, created, net, [call]) ==
      match Answer(world, created, net, call) case None => Replayed(net, false) case Some(after) => Replayed(after, true)
  {
    hide Answer;
    assert [call][..0] == [];
  }

  /** Disconnecting, in whatever order. */
  lemma {:induction false} ReplayDisconnects(world: World, created: Config, net: Net, calls: seq<Call>, leaving: set<string>)
    requires Disconnects(calls, leaving) && leaving <= net.members
    ensures Replay(world, created, Some(net), calls) == Replayed(Some(Net(net.config, net.members - leaving)), true)
  {
    if calls == [] {
      NoneDisconnected(calls, leaving);
      assert net.members - leaving == net.members;
    } else {
      var n := |calls| - 1;
      var name := calls[n].name;
      OneFewer(calls, leaving);
      ReplayDisconnects(world, created, net, calls[..n], leaving - {name});
      assert net.members - (leaving - {name}) - {name} == net.members - leaving;
    }
  }

  lemma OneFewer(calls: seq<Call>, leaving: set<string>)
    requires Disconnects(calls, leaving) && calls != []
    ensures var last := calls[|calls| - 1];
      last.DisconnectCall? && last.name in leaving && Disconnects(calls[..|calls| - 1], leaving - {last.name})
  {
    var n := |calls| - 1;
    var init, last := calls[..n], calls[n];
    assert last in calls;
    forall x | x in init ensures x.DisconnectCall? && x.name in leaving - {last.name} {
      assert x in calls;
      var i :| 0 <= i < n && init[i] == x;
      assert calls[i] != calls[n];
    }
    forall m | m in leaving - {last.name} ensures DisconnectCall(m) in init {
      var i :| 0 <= i < |calls| && calls[i] == DisconnectCall(m);
      assert i < n;
    }
  }

  lemma {:induction false} ReplayConnects(world: World, created: Config, net: Net, snapshot: set<string>, refs: seq<string>)
    ensures var c := ConnectAll(world, snapshot, net.members, refs);
      var calls := Connects(world, snapshot, net.members, refs);
      && Replay(world, created, Some(net), calls) == Replayed(Some(Net(net.config, c.members)), c.ok)
      && (calls != [] ==> Replay(world, created, Some(net), calls[..|calls| - 1]).ok)
  {
    hide Replay, ConnectAll, Connects;
    ReplayNone(world, created, Some(net));
    if refs == [] {
      NoneConnected(world, snapshot, net.members);
    } else {
      var before, r := refs[..|refs| - 1], refs[|refs| - 1];
      ReplayConnects(world, created, net, snapshot, before);
      var c, sofar := ConnectAll(world, snapshot, net.members, before), Connects(world, snapshot, net.members, before);
      var mid := Some(Net(net.config, c.members));
      NothingAppended(sofar);
      InitOfAppend(sofar, [ConnectCall(r)]);
      ReplayAppend(world, created, Some(net), sofar, [ConnectCall(r)]);
      ReplayOne(world, created, mid, ConnectCall(r));
      ConnectStep(world, snapshot, net.members, refs);
    }
  }

  lemma NoneConnected(world: World, snapshot: set<string>, members: set<string>)
    ensures ConnectAll(world, snapshot, members, []) == Connecting(members, true)
    ensures Connects(world, snapshot, members, []) == []
  {
  }

  lemma ConnectStep(world: World, snapshot: set<string>, members: set<string>, refs: seq<string>)
    requires refs != []
    ensures var before, r := refs[..|refs| - 1], refs[|refs| - 1];
      var c, calls := ConnectAll(world, snapshot, members, before), Connects(world, snapshot, members, before);
      var c', calls' := ConnectAll(world, snapshot, members, refs), Connects(world, snapshot, members, refs);
      if !c.ok || r in snapshot then c' == c && calls' == calls
      else
        && calls' == calls + [ConnectCall(r)]
        && c' == if r in world && world[r] !in c.members then Connecting(c.members + {world[r]}, true) else Connecting(c.members, false)
  {
  }

  lemma NothingAppended<T>(a: seq<T>)
    ensures a + [] == a
  {
  }

  lemma InitOfAppend<T>(a: seq<T>, b: seq<T>)
    requires b != []
    ensures (a + b)[..|a + b| - 1] == a + b[..|b| - 1]
    ensures |b| == 1 ==> (a + b)[..|a + b| - 1] == a
  {
  }

  /** A run with state `present` by its two halves. */
  lemma PresentIs(world: World, names: map<string, string>, created: Config, p: Params, refs: seq<string>, net: Option<Net>)
    ensures var out := PresentRun(world, names, created, p, refs, net);
      var s := Snapshot(p, net);
      var c := ConnectAll(world, s, s, refs);
      var gone := if p.appends || !c.ok then {} else s - Elems(refs);
      if !BuildsIfNeeded(names, p, net) then out == Outcome(None, false, net.Some?)
      else
        out == Outcome(Some(Net(if CallsForNetwork(p, net) then created else net.value.config, c.members - gone)), c.ok,
                       CallsForNetwork(p, net) || c.members != s || gone != {})
  {
    hide Different, ConnectAll, Elems, Buildable;
    var c := ConnectAll(world, {}, {}, refs);
    assert c.members - {} == c.members && {} - Elems(refs) == {};
  }

  /** The calls of a run, answered one by one, leave just what the run is said to leave; none of
      them is refused if it goes through or gives up over its options, and otherwise only the
      last. */
  lemma CallsLeave(world: World, names: map<string, string>, created: Config, p: Params, refs: seq<string>,
                   net: Option<Net>, calls: seq<Call>)
    requires RunCalls(world, names, p, refs, net, calls)
    ensures var out := PresentRun(world, names, created, p, refs, net);
      && Replay(world, created, net, calls) == Replayed(out.net, BuildsIfNeeded(names, p, net) ==> out.ok)
      && (calls != [] ==> Replay(world, created, net, calls[..|calls| - 1]).ok)
  {
    hide Different, Disconnects, Elems, ConnectAll, Connects, Replay, Answer, RenewCalls, Buildable, PresentRun;
    PresentIs(world, names, created, p, refs, net);
    var s := Snapshot(p, net);
    var emptied, left :|
      Orders(world, names, p, refs, net, emptied, left) && calls == CallsOf(world, names, p, refs, net, emptied, left);
    var renew, connect := RenewCalls(names, p, net, emptied), Connects(world, s, s, refs);
    RenewLeaves(world, names, created, p, net, emptied);
    if !BuildsIfNeeded(names, p, net) {
      NoneDisconnected(left, {});
      assert calls == renew;
    } else {
      var mid := if CallsForNetwork(p, net) then Net(created, {}) else net.value;
      ReplayConnects(world, created, mid, s, refs);
      ReplayAppend(world, created, net, renew, connect);
      var c := ConnectAll(world, s, s, refs);
      if c.ok {
        ConnectAllIs(world, s, s, refs);
        RestLeaves(world, created, Net(mid.config, c.members), left, if p.appends then {} else s - Elems(refs));
        ReplayAppend(world, created, net, renew + connect, left + [Look]);
        assert calls == (renew + connect) + (left + [Look]);
      } else {
        NoneDisconnected(left, {});
        assert c.members - {} == c.members;
        assert calls == renew + connect;
        RefusedLast(world, created, net, renew, connect, Some(mid));
      }
    }
    PrefixGoes(world, created, net, calls);
  }

  lemma PrefixGoes(world: World, created: Config, net: Option<Net>, calls: seq<Call>)
    ensures Replay(world, created, net, calls).ok && calls != [] ==> Replay(world, created, net, calls[..|calls| - 1]).ok
  {
  }

  lemma RefusedLast(world: World, created: Config, net: Option<Net>, a: seq<Call>, b: seq<Call>, mid: Option<Net>)
    requires Replay(world, created, net, a) == Replayed(mid, true)
    requires !Replay(world, created, mid, b).ok && (b != [] ==> Replay(world, created, mid, b[..|b| - 1]).ok)
    ensures a + b != [] && Replay(world, created, net, (a + b)[..|a + b| - 1]).ok
  {
    hide Replay;
    ReplayNone(world, created, mid);
    InitOfAppend(a, b);
    ReplayAppend(world, created, net, a, b[..|b| - 1]);
  }

  lemma RestLeaves(world: World, created: Config, net: Net, left: seq<Call>, gone: set<string>)
    requires Disconnects(left, gone) && gone <= net.members
    ensures Replay(world, created, Some(net), left + [Look]) == Replayed(Some(Net(net.config, net.members - gone)), true)
  {
    hide Disconnects, Replay;
    ReplayDisconnects(world, created, net, left, gone);
    ReplayAppend(world, created, Some(net), left, [Look]);
    ReplayOne(world, created, Some(Net(net.config, net.members - gone)), Look);
  }

  lemma RenewLeaves(world: World, names: map<string, string>, created: Config, p: Params, net: Option<Net>, emptied: seq<Call>)
    requires Disconnects(emptied, if Recreates(p, net) then net.value.members else {})
    ensures Replay(world, created, net, RenewCalls(names, p, net, emptied)) ==
      Replayed(if !CallsForNetwork(p, net) then net else if Buildable(names, p) then Some(Net(created, {})) else None, true)
  {
    hide Different, Disconnects, Replay, Buildable;
    var removing := if Recreates(p, net) then [Look] + emptied + [RemoveCall] else [];
    var creating := if CallsForNetwork(p, net) && Buildable(names, p) then [CreateCall, Look] else [];
    ReplayNone(world, created, net);
    if Recreates(p, net) { RemovingLeaves(world, created, net.value, emptied); }
    ReplayAppend(world, created, net, removing, creating);
    ReplayNone(world, created, None);
    CreatingLeaves(world, created);
  }

  lemma ReplayNone(world: World, created: Config, net: Option<Net>)
    ensures Replay(world, created, net, []) == Replayed(net, true)
  {
  }

  lemma RemovingLeaves(world: World, created: Config, net: Net, emptied: seq<Call>)
    requires Disconnects(emptied, net.members)
    ensures Replay(world, created, Some(net), [Look] + emptied + [RemoveCall]) == Replayed(None, true)
  {
    hide Disconnects, Replay;
    ReplayOne(world, created, Some(net), Look);
    ReplayDisconnects(world, created, net, emptied, net.members);
    ReplayAppend(world, created, Some(net), [Look], emptied);
    ReplayAppend(world, created, Some(net), [Look] + emptied, [RemoveCall]);
    ReplayOne(world, created, Some(Net(net.config, net.members - net.members)), RemoveCall);
    assert net.members - net.members == {};
  }

  lemma CreatingLeaves(world: World, created: Config)
    ensures Replay(world, created, None, [CreateCall, Look]) == Replayed(Some(Net(created, {})), true)
  {
    hide Replay;
    assert [CreateCall, Look] == [CreateCall] + [Look];
    ReplayOne(world, created, None, CreateCall);
    ReplayAppend(world, created, None, [CreateCall], [Look]);
    ReplayOne(world, created, Some(Net(created, {})), Look);
  }

  /** A successful run reports no change exactly if all it does after its snapshot is look. */
  lemma UnchangedOnlyLooks(world: World, names: map<string, string>, created: Config, p: Params, refs: seq<string>,
                           net: Option<Net>, calls: seq<Call>)
    requires PresentRun(world, names, created, p, refs, net).ok && RunCalls(world, names, p, refs, net, calls)
    ensures !PresentRun(world, names, created, p, refs, net).changed <==> calls == [Look]
  {
    hide Different, Disconnects, Elems;
    var s := Snapshot(p, net);
    NoConnects(world, s, s, refs);
    var emptied, left :|
      Orders(world, names, p, refs, net, emptied, left) && calls == CallsOf(world, names, p, refs, net, emptied, left);
    NoneDisconnected(left, if p.appends then {} else s - Elems(refs));
    hide Orders, Connects, ConnectAll;
    if CallsForNetwork(p, net) {
      assert CreateCall in calls;
    } else {
      assert calls == Connects(world, s, s, refs) + left + [Look];
    }
  }

  // ---------- connecting ----------

  /** The containers that references outside the snapshot stand for. */
  function NewOnes(world: World, snapshot: set<string>, refs: seq<string>): set<string> {
    set r | r in refs && r !in snapshot && r in world :: world[r]
  }

  /** No reference outside the snapshot is unknown, already connected or a repetition. */
  ghost predicate Connectable(world: World, snapshot: set<string>, members: set<string>, refs: seq<string>) {
    && (forall r | r in refs && r !in snapshot :: r in world && world[r] !in members)
    && (forall i, j | 0 <= i < j < |refs| && refs[i] !in snapshot && refs[j] !in snapshot && refs[i] in world && refs[j] in world ::
          world[refs[i]] != world[refs[j]])
  }

  /** Connecting succeeds exactly for such references, although the snapshot is never
      refreshed, and then adds just the containers they stand for. */
  lemma {:induction false} ConnectAllIs(world: World, snapshot: set<string>, members: set<string>, refs: seq<string>)
    ensures var c := ConnectAll(world, snapshot, members, refs);
      && (c.ok <==> Connectable(world, snapshot, members, refs))
      && (c.ok ==> c.members == members + NewOnes(world, snapshot, refs))
      && members <= c.members
  {
    if refs != [] {
      var n := |refs| - 1;
      var head, r := refs[..n], refs[n];
      ConnectAllIs(world, snapshot, members, head);
      var c := ConnectAll(world, snapshot, members, head);
      assert refs == head + [r];
      NewOnesSnoc(world, snapshot, head, r);
      ConnectableSnoc(world, snapshot, members, head, r);
    }
  }

  lemma NewOnesSnoc(world: World, snapshot: set<string>, head: seq<string>, r: string)
    ensures NewOnes(world, snapshot, head + [r]) == NewOnes(world, snapshot, head) +
      (if r !in snapshot && r in world then {world[r]} else {})
  {
    var refs := head + [r];
    forall x | x in NewOnes(world, snapshot, head) ensures x in NewOnes(world, snapshot, refs) {
      var y :| y in head && y !in snapshot && y in world && x == world[y];
      assert y in refs;
    }
    if r !in snapshot && r in world { assert r in refs; }
  }

  lemma ConnectableSnoc(world: World, snapshot: set<string>, members: set<string>, head: seq<string>, r: string)
    ensures Connectable(world, snapshot, members, head + [r]) <==>
      Connectable(world, snapshot, members, head) &&
      (r !in snapshot ==> r in world && world[r] !in members && world[r] !in NewOnes(world, snapshot, head))
  {
    var refs := head + [r];
    assert refs[|head|] == r && forall i | 0 <= i < |head| :: refs[i] == head[i];
    if Connectable(world, snapshot, members, refs) {
      assert forall x | x in head :: x in refs;
      assert r in refs;
      assert Connectable(world, snapshot, members, head);
    }
    if Connectable(world, snapshot, members, head) &&
       (r !in snapshot ==> r in world && world[r] !in members && world[r] !in NewOnes(world, snapshot, head))
    {
      forall i, j | 0 <= i < j < |refs| && refs[i] !in snapshot && refs[j] !in snapshot && refs[i] in world && refs[j] in world
        ensures world[refs[i]] != world[refs[j]]
      {
        assert refs[i] == head[i] && head[i] in head;
        if j == |head| { assert world[head[i]] in NewOnes(world, snapshot, head); }
      }
    }
  }

  // ---------- present ----------

  /** A run succeeds exactly if the options can be built where the network is to be created,
      and the references can be connected. */
  predicate BuildsIfNeeded(names: map<string, string>, p: Params, net: Option<Net>) {
    (net.None? || Recreates(p, net)) ==> Buildable(names, p)
  }

  lemma PresentSucceedsIff(world: World, names: map<string, string>, created: Config, p: Params, refs: seq<string>, net: Option<Net>)
    ensures var s := Snapshot(p, net);
      PresentRun(world, names, created, p, refs, net).ok <==>
        BuildsIfNeeded(names, p, net) && Connectable(world, s, s, refs)
    ensures BuildsIfNeeded(names, p, net) <==>
      (net.Some? && !p.force && !Different(p, net.value.config)) || forall k | k in p.ipamOptions :: k in names
  {
    var s := Snapshot(p, net);
    ConnectAllIs(world, s, s, refs);
  }

  /** What a failed run leaves: no network at all, be there one before or not, exactly if it
      had to create it and could not build the options; otherwise everyone of the snapshot and
      none but the requested containers besides. */
  lemma FailedRunLeaves(world: World, names: map<string, string>, created: Config, p: Params, refs: seq<string>, net: Option<Net>)
    requires !PresentRun(world, names, created, p, refs, net).ok
    ensures var after, s := PresentRun(world, names, created, p, refs, net).net, Snapshot(p, net);
      && (after.None? <==> !BuildsIfNeeded(names, p, net))
      && (after.Some? ==> s <= after.value.members <= s + NewOnes(world, s, refs))
  {
    var s := Snapshot(p, net);
    ConnectAllIs(world, s, s, refs);
    OnlyNewOnes(world, s, s, refs);
    hide Different, Connectable, NewOnes;
  }

  lemma {:induction false} OnlyNewOnes(world: World, snapshot: set<string>, members: set<string>, refs: seq<string>)
    ensures ConnectAll(world, snapshot, members, refs).members <= members + NewOnes(world, snapshot, refs)
  {
    if refs != [] {
      var n := |refs| - 1;
      OnlyNewOnes(world, snapshot, members, refs[..n]);
      assert refs == refs[..n] + [refs[n]];
      NewOnesSnoc(world, snapshot, refs[..n], refs[n]);
      hide NewOnes;
    }
  }

  /** The containers connected after a run, be they given by name or by id. */
  lemma MembersAfter(world: World, names: map<string, string>, created: Config, p: Params, refs: seq<string>, net: Option<Net>)
    requires PresentRun(world, names, created, p, refs, net).ok
    ensures var out := PresentRun(world, names, created, p, refs, net);
      var s := Snapshot(p, net);
      && out.net.Some?
      && out.net.value.members == (if p.appends then s else s * Elems(refs)) + NewOnes(world, s, refs)
      && out.net.value.config == (if net.None? || Recreates(p, net) then created else net.value.config)
  {
    var s := Snapshot(p, net);
    ConnectAllIs(world, s, s, refs);
    assert NewOnes(world, s, refs) !! s;
  }

  /** Which network a successful run leaves: the one that was there, exactly if it has every
      setting that was given and `force` was not; otherwise one created with the settings, and
      then it has them, if the daemon keeps them. */
  lemma SettingsReached(world: World, names: map<string, string>, created: Config, p: Params, refs: seq<string>, net: Option<Net>)
    requires PresentRun(world, names, created, p, refs, net).ok
    ensures var after := PresentRun(world, names, created, p, refs, net).net;
      && after.Some?
      && after.value.config == (if net.Some? && HasSettings(p, net.value.config) && !p.force then net.value.config else created)
      && (Stores(names, p, created) && Findable(names, p) ==> HasSettings(p, after.value.config))
      && forall calls | RunCalls(world, names, p, refs, net, calls) ::
           CreateCall in calls <==> !(net.Some? && HasSettings(p, net.value.config) && !p.force)
  {
    hide Different, HasSettings, Stores, Findable, ConnectAll, Connects, Disconnects, Elems;
    if net.Some? { DifferentIffLacking(p, net.value.config); }
    DifferentIffLacking(p, created);
    if Stores(names, p, created) && Findable(names, p) { CreatedIsNotDifferent(names, p, created); }
    forall calls | RunCalls(world, names, p, refs, net, calls) ensures CreateCall in calls <==> CallsForNetwork(p, net) {
      CreatesIff(world, names, p, refs, net, calls);
    }
  }

  lemma CreatesIff(world: World, names: map<string, string>, p: Params, refs: seq<string>, net: Option<Net>, calls: seq<Call>)
    requires RunCalls(world, names, p, refs, net, calls) && BuildsIfNeeded(names, p, net)
    ensures CreateCall in calls <==> CallsForNetwork(p, net)
  {
    hide Different, ConnectAll, Connects, Elems, GoesThrough;
    var s := Snapshot(p, net);
    OnlyConnects(world, s, s, refs);
    var emptied, left :|
      Orders(world, names, p, refs, net, emptied, left) && calls == CallsOf(world, names, p, refs, net, emptied, left);
    if Recreates(p, net) { assert CreateCall in RenewCalls(names, p, net, emptied); }
  }

  lemma {:induction false} OnlyConnects(world: World, snapshot: set<string>, members: set<string>, refs: seq<string>)
    ensures forall x | x in Connects(world, snapshot, members, refs) :: x.ConnectCall?
  {
    if refs != [] { OnlyConnects(world, snapshot, members, refs[..|refs| - 1]); }
  }

  predicate ByName(world: World, refs: seq<string>) {
    forall r | r in refs :: r in world && world[r] == r
  }

  lemma NewNames(world: World, snapshot: set<string>, refs: seq<string>)
    requires ByName(world, refs)
    ensures NewOnes(world, snapshot, refs) == Elems(refs) - snapshot
  {
    forall x | x in Elems(refs) - snapshot ensures x in NewOnes(world, snapshot, refs) {
      assert x in refs && world[x] == x;
    }
  }

  lemma DistinctNamesConnect(world: World, snapshot: set<string>, refs: seq<string>)
    requires ByName(world, refs) && Distinct(refs)
    ensures Connectable(world, snapshot, snapshot, refs)
  {
    forall i, j | 0 <= i < j < |refs| ensures world[refs[i]] != world[refs[j]] {
      assert refs[i] in refs && refs[j] in refs;
    }
  }

  /** What `present` promises for containers given by distinct names: without `appends`
      exactly the requested ones are connected, or those of before when none were requested,
      with or without the network being created again. With `appends` the others stay, unless
      the network is created again: then they are lost. */
  lemma MembershipReached(world: World, names: map<string, string>, created: Config, p: Params, refs: seq<string>, net: Option<Net>)
    requires Targets(p, net, refs) && ByName(world, refs) && Distinct(refs) && BuildsIfNeeded(names, p, net)
    ensures var out := PresentRun(world, names, created, p, refs, net);
      && out.ok && out.net.Some?
      && var before := if net.Some? then net.value.members else {};
         out.net.value.members ==
           if p.connected == [] then before
           else if p.appends && !Recreates(p, net) then before + Elems(p.connected)
           else Elems(p.connected)
  {
    var s := Snapshot(p, net);
    DistinctNamesConnect(world, s, refs);
    PresentSucceedsIff(world, names, created, p, refs, net);
    MembersAfter(world, names, created, p, refs, net);
    NewNames(world, s, refs);
    if p.connected == [] && net.None? { assert refs == [] && Elems(refs) == {}; }
    hide Connectable, NewOnes, Different, PresentRun;
  }

  /** Naming a container twice fails, exactly if the snapshot does not have it yet. */
  lemma RepeatedNameRefusedIff(world: World, snapshot: set<string>, refs: seq<string>)
    requires ByName(world, refs)
    ensures Connectable(world, snapshot, snapshot, refs) <==>
      forall i, j | 0 <= i < j < |refs| && refs[i] == refs[j] :: refs[i] in snapshot
  {
    if Connectable(world, snapshot, snapshot, refs) {
      forall i, j | 0 <= i < j < |refs| && refs[i] == refs[j] ensures refs[i] in snapshot {
        assert refs[i] in refs;
      }
    }
    if forall i, j | 0 <= i < j < |refs| && refs[i] == refs[j] :: refs[i] in snapshot {
      forall i, j | 0 <= i < j < |refs| && refs[i] !in snapshot && refs[j] !in snapshot
        ensures world[refs[i]] != world[refs[j]]
      {
        assert refs[i] in refs && refs[j] in refs;
      }
    }
  }

  // ---------- changed ----------

  /** A successful run reports a change exactly if it created the network or changed who is
      connected; with `force` it always does, however often it is repeated. */
  lemma ChangedIsHonest(world: World, names: map<string, string>, created: Config, p: Params, refs: seq<string>, net: Option<Net>)
    requires PresentRun(world, names, created, p, refs, net).ok
    ensures var out := PresentRun(world, names, created, p, refs, net);
      && (out.changed <==> net.None? || Recreates(p, net) || out.net != net)
      && (p.force ==> out.changed)
  {
    var s := Snapshot(p, net);
    ConnectAllIs(world, s, s, refs);
    if net.Some? && !Recreates(p, net) {
      var c := ConnectAll(world, s, s, refs);
      var gone := if p.appends then {} else s - Elems(refs);
      assert c.members - gone == s <==> c.members == s && gone == {} by {
        if c.members - gone == s {
          forall x | x in c.members ensures x in s { assert x in gone ==> x in s; }
        }
      }
    }
    hide Connectable, Different;
  }

  // ---------- a second run ----------

  /** Asking again: when the daemon keeps the settings, a second run without `force` does
      nothing, if and only if every container is given by its name. By id it is connected
      again, which the daemon refuses. */
  lemma SecondRunSilentIff(world: World, names: map<string, string>, created: Config, p: Params,
                           refs: seq<string>, net: Option<Net>, again: seq<string>)
    requires NamesStandForThemselves(world) && !p.force && !Different(p, created)
    requires net.Some? ==> forall m | m in net.value.members :: m in world && world[m] == m
    requires Targets(p, net, refs) && PresentRun(world, names, created, p, refs, net).ok
    requires Targets(p, PresentRun(world, names, created, p, refs, net).net, again)
    ensures var out := PresentRun(world, names, created, p, refs, net);
      && (ByName(world, refs) ==> PresentRun(world, names, created, p, again, out.net) == Outcome(out.net, true, false))
      && (!ByName(world, refs) ==> !PresentRun(world, names, created, p, again, out.net).ok)
  {
    var out := PresentRun(world, names, created, p, refs, net);
    var s := Snapshot(p, net);
    PresentSucceedsIff(world, names, created, p, refs, net);
    MembersAfter(world, names, created, p, refs, net);
    assert !Recreates(p, out.net);
    var members := out.net.value.members;
    assert AllKnown(world, s, refs);
    hide Connectable, Different, PresentRun;
    SecondTargets(world, p, s, refs, members, net, out.net, again);
    if ByName(world, refs) {
      NothingToConnect(world, names, created, p, again, out.net);
    } else {
      PresentSucceedsIff(world, names, created, p, again, out.net);
      IdRefused(world, s, members, refs);
    }
  }

  predicate AllKnown(world: World, s: set<string>, refs: seq<string>) {
    forall r | r in refs && r !in s :: r in world
  }

  lemma SecondTargets(world: World, p: Params, s: set<string>, refs: seq<string>, members: set<string>,
                      net: Option<Net>, after: Option<Net>, again: seq<string>)
    requires s == Snapshot(p, net) && AllKnown(world, s, refs)
    requires after.Some? && after.value.members == members
    requires members == (if p.appends then s else s * Elems(refs)) + NewOnes(world, s, refs)
    requires Targets(p, net, refs) && Targets(p, after, again)
    requires net.Some? ==> forall m | m in net.value.members :: m in world && world[m] == m
    ensures ByName(world, refs) ==> Elems(again) <= members && (p.appends || members <= Elems(again))
    ensures !ByName(world, refs) ==> again == refs
  {
    if ByName(world, refs) {
      NewNames(world, s, refs);
      if p.connected == [] {
        if net.None? { assert refs == []; }
      } else {
        assert again == refs;
      }
    } else {
      if p.connected == [] {
        if net.Some? {
          forall r | r in refs ensures r in world && world[r] == r { assert r in Elems(refs); }
        }
        assert ByName(world, refs);
        assert false;
      }
    }
  }

  lemma NothingToConnect(world: World, names: map<string, string>, created: Config, p: Params, refs: seq<string>, net: Option<Net>)
    requires net.Some? && !Recreates(p, net)
    requires Elems(refs) <= net.value.members && (p.appends || net.value.members <= Elems(refs))
    ensures PresentRun(world, names, created, p, refs, net) == Outcome(net, true, false)
  {
    var s := net.value.members;
    ConnectAllIs(world, s, s, refs);
    forall r | r in refs ensures r in s { assert r in Elems(refs); }
    assert NewOnes(world, s, refs) == {};
    assert Connectable(world, s, s, refs);
    hide Different;
  }

  lemma IdRefused(world: World, s: set<string>, members: set<string>, refs: seq<string>)
    requires NamesStandForThemselves(world) && AllKnown(world, s, refs) && !ByName(world, refs)
    requires NewOnes(world, s, refs) <= members
    requires forall m | m in s :: m in world && world[m] == m
    requires forall m | m in members :: m in world && world[m] == m
    ensures !Connectable(world, members, members, refs)
  {
    var r :| r in refs && !(r in world && world[r] == r);
    assert r !in s && r in world;
    assert world[r] in NewOnes(world, s, refs);
    assert r !in members;
  }

  // ---------- options that cannot be found again ----------

  /** The keys under which docker-py writes the keywords of its pool constructor. */
  const POOL_KEYS: map<string, string> :=
    map["subnet" := "Subnet", "iprange" := "IPRange", "gateway" := "Gateway", "aux_addresses" := "AuxiliaryAddresses"]

  lemma PoolKeysLower()
    ensures Lower("Subnet") == "subnet" && Lower("IPRange") == "iprange" && Lower("Gateway") == "gateway"
    ensures |Lower("AuxiliaryAddresses")| != |"aux_addresses"|
  {
  }

  /** With docker-py's keys and a pool holding what was asked for, a network just created
      counts as different exactly if `aux_addresses` was among the options. */
  lemma DifferentIffAuxAddresses(p: Params, c: Config)
    requires Stores(POOL_KEYS, p, c)
    requires forall i | c.ipam.value.pools != [] && 0 <= i < |c.ipam.value.pools[0]| :: c.ipam.value.pools[0][i].0 in POOL_KEYS.Values
    ensures Different(p, c) <==> "aux_addresses" in p.ipamOptions
  {
    hide Different, Lower;
    PoolKeysLower();
    if "aux_addresses" in p.ipamOptions {
      forall e | e in c.ipam.value.pools[0] ensures Lower(e.0) != "aux_addresses" {
        assert e.0 in POOL_KEYS.Values;
        var k :| k in POOL_KEYS && POOL_KEYS[k] == e.0;
        assert k == "subnet" || k == "iprange" || k == "gateway" || k == "aux_addresses";
      }
      LostOptionIsDifferent(p, c, "aux_addresses");
    } else {
      assert Findable(POOL_KEYS, p);
      CreatedIsNotDifferent(POOL_KEYS, p, c);
    }
  }

  /** A network whose settings cannot be found again is created anew by every run, which
      disconnects every container not requested even with `appends`. */
  lemma DifferentEveryRun(world: World, names: map<string, string>, created: Config, p: Params, refs: seq<string>, net: Option<Net>)
    requires Different(p, created) && net.Some? && net.value.config == created
    requires PresentRun(world, names, created, p, refs, net).ok
    ensures var out := PresentRun(world, names, created, p, refs, net);
      out.changed && out.net == Some(Net(created, NewOnes(world, {}, refs)))
  {
    ConnectAllIs(world, {}, {}, refs);
    assert {} + NewOnes(world, {}, refs) == NewOnes(world, {}, refs);
    hide Different, Connectable;
  }

  // ---------- check mode ----------

  /** A run with state `present` in check mode. The network it would create is missing when
      it looks for connected containers, which fails if any are asked for. */
  function CheckRun(names: map<string, string>, p: Params, refs: seq<string>, net: Option<Net>): Outcome {
    if net.None? || Recreates(p, net) then
      Outcome(net, Buildable(names, p) && refs == [], net.Some? || Buildable(names, p))
    else
      Outcome(net, true, !AllIn(refs, net.value.members) || (!p.appends && !(net.value.members <= Elems(refs))))
  }

  /** What check mode comes to: nothing is done; where the network would have to be created, it
      fails if an option is unknown or a container is asked for, and otherwise it reports that;
      where it would not, it reports containers that would be connected or disconnected. */
  lemma CheckModeIs(names: map<string, string>, p: Params, refs: seq<string>, net: Option<Net>)
    ensures var out := CheckRun(names, p, refs, net);
      var kept := net.Some? && HasSettings(p, net.value.config) && !p.force;
      var known := forall k | k in p.ipamOptions :: k in names;
      && out.net == net
      && (out.ok <==> kept || (known && refs == []))
      && (out.changed <==>
            if !kept then net.Some? || known
            else (exists r | r in refs :: r !in net.value.members)
                 || (!p.appends && exists m | m in net.value.members :: m !in refs))
  {
    hide Different, HasSettings;
    if net.Some? { DifferentIffLacking(p, net.value.config); }
    assert Buildable(names, p) <==> forall k | k in p.ipamOptions :: k in names;
  }

  /** Where both go through, check mode reports what the real run reports. */
  lemma CheckModePredicts(world: World, names: map<string, string>, created: Config, p: Params, refs: seq<string>, net: Option<Net>)
    requires CheckRun(names, p, refs, net).ok && PresentRun(world, names, created, p, refs, net).ok
    ensures CheckRun(names, p, refs, net).changed == PresentRun(world, names, created, p, refs, net).changed
  {
    var s := Snapshot(p, net);
    ConnectAllIs(world, s, s, refs);
    if net.Some? && !Recreates(p, net) {
      if !AllIn(refs, s) {
        var r :| r in refs && r !in s;
        assert world[r] in NewOnes(world, s, refs);
      } else {
        assert NewOnes(world, s, refs) == {};
      }
    }
    hide Different, Connectable;
  }
}
