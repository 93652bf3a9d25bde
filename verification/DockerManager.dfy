/** The daemon and `DockerNetworkManager` as objects, method by method. */
module DockerManager {
  import opened Strings
  import opened DockerNetwork
  import opened DockerRuns

  datatype Action = Created | Removed | ConnectedOne(ref: string) | DisconnectedOne(name: string)

  class Daemon {
    const world: World
    const created: Config
    var net: Option<Net>
    var calls: seq<Call>

    constructor (world: World, created: Config, net: Option<Net>)
      ensures this.world == world && this.created == created && this.net == net && calls == []
    {
      this.world, this.created, this.net, this.calls := world, created, net, [];
    }

    method Inspect() returns (found: Option<Net>)
      modifies this`calls
      ensures found == net && calls == old(calls) + [Look]
    {
      calls := calls + [Look];
      found := net;
    }

    method CreateNetwork() returns (ok: bool)
      modifies this
      ensures calls == old(calls) + [CreateCall]
      ensures match Answer(world, created, old(net), CreateCall)
        case None => !ok && net == old(net)
        case Some(after) => ok && net == after
    {
      calls := calls + [CreateCall];
      ok := net.None?;
      if ok { net := Some(Net(created, {})); }
    }

    method RemoveNetwork() returns (ok: bool)
      modifies this
      ensures calls == old(calls) + [RemoveCall]
      ensures match Answer(world, created, old(net), RemoveCall)
        case None => !ok && net == old(net)
        case Some(after) => ok && net == after
    {
      calls := calls + [RemoveCall];
      ok := net.Some? && net.value.members == {};
      if ok { net := None; }
    }

    method Connect(ref: string) returns (ok: bool)
      modifies this
      ensures calls == old(calls) + [ConnectCall(ref)]
      ensures match Answer(world, created, old(net), ConnectCall(ref))
        case None => !ok && net == old(net)
        case Some(after) => ok && net == after
    {
      calls := calls + [ConnectCall(ref)];
      ok := net.Some? && ref in world && world[ref] !in net.value.members;
      if ok { net := Some(Net(net.value.config, net.value.members + {world[ref]})); }
    }

    method Disconnect(name: string) returns (ok: bool)
      modifies this
      ensures calls == old(calls) + [DisconnectCall(name)]
      ensures match Answer(world, created, old(net), DisconnectCall(name))
        case None => !ok && net == old(net)
        case Some(after) => ok && net == after
    {
      calls := calls + [DisconnectCall(name)];
      ok := net.Some? && name in net.value.members;
      if ok { net := Some(Net(net.value.config, net.value.members - {name})); }
    }
  }

  class DockerNetworkManager {
    const daemon: Daemon
    const names: map<string, string>
    const p: Params
    const checkMode: bool
    var existingNetwork: Option<Net>
    var connected: seq<string>
    var changed: bool
    var actions: seq<Action>

    /** Takes the snapshot and the default for `connected` from it. */
    constructor (daemon: Daemon, names: map<string, string>, p: Params, checkMode: bool)
      modifies daemon`calls
      ensures daemon.calls == old(daemon.calls) + [Look]
      ensures this.daemon == daemon && this.names == names && this.p == p && this.checkMode == checkMode
      ensures existingNetwork == daemon.net && Targets(p, daemon.net, connected)
      ensures !changed && actions == []
    {
      this.daemon, this.names, this.p, this.checkMode := daemon, names, p, checkMode;
      existingNetwork := daemon.net;
      connected := p.connected;
      changed, actions := false, [];
      new;
      existingNetwork := daemon.Inspect();
      if p.connected == [] && existingNetwork.Some? {
        connected := NamesIn(existingNetwork.value.members);
      }
    }

    static method NamesIn(members: set<string>) returns (r: seq<string>)
      ensures Distinct(r) && Elems(r) == members
    {
      r := [];
      var todo := members;
      while todo != {}
        invariant todo <= members && Distinct(r) && Elems(r) == members - todo
        decreases |todo|
      {
        var x :| x in todo;
        assert x !in Elems(r);
        assert Elems(r + [x]) == Elems(r) + {x};
        r := r + [x];
        todo := todo - {x};
      }
    }

    /** The names of the settings that differ; `different` says there are any. */
    static method HasDifferentConfig(p: Params, c: Config) returns (different: bool, differences: seq<string>)
      ensures different <==> Different(p, c)
      ensures different <==> !HasSettings(p, c)
      ensures Elems(differences) == Differences(p, c)
    {
      hide DriverOptionNames, PoolOptionNames, Different, Differences, Elems, HasSettings;
      DifferentIffLacking(p, c);
      different, differences := false, [];
      if p.driver != "" && p.driver != c.driver {
        different, differences := true, ["driver"];
      }
      ghost var driver := differences;
      var options := DriverDifferences(p, c);
      different, differences := different || options != [], differences + options;
      ghost var ipam := [];
      if p.ipamDriver != "" && (c.ipam.None? || c.ipam.value.driver != p.ipamDriver) {
        different, differences, ipam := true, differences + ["ipam_driver"], ["ipam_driver"];
      }
      var pools := PoolDifferences(p, c);
      different, differences := different || pools != [], differences + pools;
      ghost var ipv6 := [];
      if p.ipv6 && !c.ipv6 {
        different, differences, ipv6 := true, differences + ["ipv6"], ["ipv6"];
      }
      assert differences == driver + options + ipam + pools + ipv6;
      NamesAre(p, c, driver, options, ipam, pools, ipv6);
    }

    static method DriverDifferences(p: Params, c: Config) returns (differences: seq<string>)
      ensures Elems(differences) == DriverOptionNames(p, c)
    {
      differences := [];
      if p.driverOptions == map[] { return; }
      if c.options == map[] { return ["driver_options"]; }
      var todo := p.driverOptions.Keys;
      while todo != {}
        invariant todo <= p.driverOptions.Keys
        invariant Elems(differences) == set k | k in p.driverOptions && k !in todo
          && DriverOptionDiffers(c.options, k, p.driverOptions[k]) :: Named("driver_options", k)
        decreases |todo|
      {
        var k :| k in todo;
        if k !in c.options || p.driverOptions[k] != c.options[k] {
          ElemsAppend(differences, [Named("driver_options", k)]);
          differences := differences + [Named("driver_options", k)];
        }
        todo := todo - {k};
      }
    }

    static method PoolDifferences(p: Params, c: Config) returns (differences: seq<string>)
      ensures Elems(differences) == PoolOptionNames(p, c)
    {
      differences := [];
      if p.ipamOptions == map[] { return; }
      if c.ipam.None? || c.ipam.value.pools == [] { return ["ipam_options"]; }
      var pool := c.ipam.value.pools[0];
      var todo := p.ipamOptions.Keys;
      while todo != {}
        invariant todo <= p.ipamOptions.Keys
        invariant Elems(differences) == set k | k in p.ipamOptions && k !in todo
          && PoolOptionDiffers(pool, k, p.ipamOptions[k]) :: Named("ipam_options", k)
        decreases |todo|
      {
        var k :| k in todo;
        var i := CamelKey(pool, k);
        if i == |pool| || pool[i].0 == "" || pool[i].1 != p.ipamOptions[k] {
          ElemsAppend(differences, [Named("ipam_options", k)]);
          differences := differences + [Named("ipam_options", k)];
        }
        todo := todo - {k};
      }
    }

    /** The search for the key that reads `key` in lower case. */
    static method CamelKey(pool: Pool, key: string) returns (i: nat)
      ensures i == FirstKey(pool, key)
    {
      i := 0;
      while i < |pool| && key != Lower(pool[i].0)
        invariant i <= |pool|
        invariant forall j | 0 <= j < i :: Lower(pool[j].0) != key
      {
        i := i + 1;
      }
    }

    /** `create_network`; false if the pool cannot be built or the daemon refuses. */
    method CreateNetwork() returns (ok: bool)
      requires existingNetwork.None? && !checkMode ==> daemon.net.None?
      modifies this, daemon
      ensures ok <==> old(existingNetwork).Some? || Buildable(names, p)
      ensures connected == old(connected)
      ensures old(existingNetwork).Some? || !ok ==>
        existingNetwork == old(existingNetwork) && daemon.net == old(daemon.net)
        && changed == old(changed) && actions == old(actions) && daemon.calls == old(daemon.calls)
      ensures old(existingNetwork).None? && ok ==>
        && daemon.calls == old(daemon.calls) + (if checkMode then [] else [CreateCall, Look])
        &&
        changed && actions == old(actions) + [Created]
        && daemon.net == (if checkMode then old(daemon.net) else Some(Net(daemon.created, {})))
        && existingNetwork == (if checkMode then None else daemon.net)
    {
      if existingNetwork.Some? { return true; }
      if !Buildable(names, p) { return false; }
      if !checkMode {
        var done := daemon.CreateNetwork();
        existingNetwork := daemon.Inspect();
      }
      actions := actions + [Created];
      changed := true;
      return true;
    }

    method DisconnectContainer(name: string) returns (ok: bool)
      modifies this`actions, this`changed, daemon
      ensures ok <==> checkMode || (old(daemon.net).Some? && name in old(daemon.net).value.members)
      ensures daemon.net ==
        if checkMode || !ok then old(daemon.net)
        else Some(Net(old(daemon.net).value.config, old(daemon.net).value.members - {name}))
      ensures ok ==> changed && actions == old(actions) + [DisconnectedOne(name)]
      ensures daemon.calls == old(daemon.calls) + (if checkMode then [] else [DisconnectCall(name)])
    {
      ok := true;
      if !checkMode {
        ok := daemon.Disconnect(name);
        if !ok { return; }
      }
      actions := actions + [DisconnectedOne(name)];
      changed := true;
    }

    /** Disconnects the given members one by one. */
    method DisconnectEach(leaving: set<string>) returns (ok: bool)
      requires daemon.net.Some? && leaving <= daemon.net.value.members
      modifies this`actions, this`changed, daemon
      ensures ok
      ensures daemon.net ==
        if checkMode then old(daemon.net)
        else Some(Net(old(daemon.net).value.config, old(daemon.net).value.members - leaving))
      ensures changed <==> old(changed) || leaving != {}
      ensures checkMode ==> daemon.calls == old(daemon.calls)
      ensures !checkMode ==> exists done :: Disconnects(done, leaving) && daemon.calls == old(daemon.calls) + done
    {
      hide Disconnects;
      var todo := leaving;
      ghost var done: seq<Call> := [];
      NobodyDisconnected(leaving - todo);
      ok := true;
      assert daemon.net.value.members - (leaving - todo) == daemon.net.value.members;
      while todo != {}
        invariant todo <= leaving && ok
        invariant daemon.net ==
          if checkMode then old(daemon.net)
          else Some(Net(old(daemon.net).value.config, old(daemon.net).value.members - (leaving - todo)))
        invariant changed <==> old(changed) || leaving - todo != {}
        invariant daemon.calls == old(daemon.calls) + done
        invariant if checkMode then done == [] else Disconnects(done, leaving - todo)
        decreases |todo|
      {
        var name :| name in todo;
        ok := DisconnectContainer(name);
        if !checkMode {
          OneMoreDisconnected(done, leaving, todo, name);
          done := done + [DisconnectCall(name)];
        }
        MinusOneMore(old(daemon.net).value.members, leaving, todo, name);
        assert name in leaving - (todo - {name});
        todo := todo - {name};
      }
      assert leaving - todo == leaving;
    }

    /** `remove_network`, which disconnects everyone whether or not `force` is given. */
    method RemoveNetwork() returns (ok: bool)
      requires existingNetwork.Some? ==> daemon.net.Some?
      modifies this`actions, this`changed, daemon
      ensures ok
      ensures daemon.net == if existingNetwork.Some? && !checkMode then None else old(daemon.net)
      ensures changed <==> old(changed) || existingNetwork.Some?
      ensures existingNetwork.None? ==> daemon.calls == old(daemon.calls)
      ensures existingNetwork.Some? && checkMode ==> daemon.calls == old(daemon.calls) + [Look]
      ensures existingNetwork.Some? && !checkMode ==> exists emptied ::
        && Disconnects(emptied, old(daemon.net).value.members)
        && daemon.calls == old(daemon.calls) + [Look] + emptied + [RemoveCall]
    {
      ok := true;
      if existingNetwork.None? { return; }
      var found := daemon.Inspect();
      ok := DisconnectEach(found.value.members);
      if !checkMode { ok := daemon.RemoveNetwork(); }
      actions := actions + [Removed];
      changed := true;
    }

    /** `connect_containers`; false if the snapshot is missing or the daemon refuses. */
    method ConnectContainers() returns (ok: bool)
      requires !checkMode ==> existingNetwork.Some? && daemon.net == existingNetwork
      modifies this`actions, this`changed, daemon
      ensures checkMode ==> daemon.net == old(daemon.net) && (ok <==> existingNetwork.Some? || connected == [])
      ensures checkMode && existingNetwork.Some? ==>
        (changed <==> old(changed) || !AllIn(connected, existingNetwork.value.members))
      ensures checkMode && existingNetwork.None? ==> changed == old(changed)
      ensures !checkMode ==>
        var s := existingNetwork.value.members;
        var c := ConnectAll(daemon.world, s, s, connected);
        && ok == c.ok && daemon.net == Some(Net(existingNetwork.value.config, c.members))
        && (changed <==> old(changed) || c.members != s)
        && daemon.calls == old(daemon.calls) + Connects(daemon.world, s, s, connected)
      ensures checkMode ==> daemon.calls == old(daemon.calls)
    {
      hide ConnectAll, Connects;
      if existingNetwork.None? { return connected == []; }
      var s := existingNetwork.value.members;
      var i := 0;
      ok := true;
      NoneConnected(daemon.world, s, s);
      while i < |connected|
        invariant 0 <= i <= |connected| && ok
        invariant checkMode ==> daemon.net == old(daemon.net)
        invariant checkMode ==> (changed <==> old(changed) || !AllIn(connected[..i], s))
        invariant !checkMode ==>
          var c := ConnectAll(daemon.world, s, s, connected[..i]);
          && c.ok && daemon.net == Some(Net(existingNetwork.value.config, c.members)) && s <= c.members
          && (changed <==> old(changed) || c.members != s)
        invariant daemon.calls == old(daemon.calls) + (if checkMode then [] else Connects(daemon.world, s, s, connected[..i]))
      {
        var r := connected[i];
        assert connected[..i + 1] == connected[..i] + [r];
        if !checkMode { ConnectOneMore(daemon.world, s, connected, i); }
        if r !in s {
          if !checkMode {
            ok := daemon.Connect(r);
            if !ok {
              FirstRefusal(daemon.world, s, s, connected, i + 1);
              return;
            }
          }
          actions := actions + [ConnectedOne(r)];
          changed := true;
        }
        i := i + 1;
      }
      assert connected[..i] == connected;
    }

    /** `disconnect_missing`, by the snapshot. */
    method DisconnectMissing() returns (ok: bool)
      requires existingNetwork.Some? ==> daemon.net.Some? && existingNetwork.value.members <= daemon.net.value.members
      modifies this`actions, this`changed, daemon
      ensures ok
      ensures existingNetwork.None? ==> daemon.net == old(daemon.net) && changed == old(changed)
      ensures existingNetwork.Some? ==>
        var gone := existingNetwork.value.members - Elems(connected);
        && daemon.net == (if checkMode then old(daemon.net)
                          else Some(Net(old(daemon.net).value.config, old(daemon.net).value.members - gone)))
        && (changed <==> old(changed) || gone != {})
      ensures existingNetwork.None? || checkMode ==> daemon.calls == old(daemon.calls)
      ensures existingNetwork.Some? && !checkMode ==> exists left ::
        Disconnects(left, existingNetwork.value.members - Elems(connected)) && daemon.calls == old(daemon.calls) + left
    {
      if existingNetwork.None? { return true; }
      hide Elems, Disconnects;
      ok := DisconnectEach(existingNetwork.value.members - Elems(connected));
    }

    /** The first half of `present`: a network with the settings asked for. */
    method Renew() returns (ok: bool)
      requires existingNetwork == daemon.net && !changed
      modifies this, daemon
      ensures connected == old(connected)
      ensures ok <==> BuildsIfNeeded(names, p, old(daemon.net))
      ensures changed <==> CallsForNetwork(p, old(daemon.net)) && (ok || old(daemon.net).Some?)
      ensures checkMode ==>
        && daemon.net == old(daemon.net)
        && existingNetwork == (if CallsForNetwork(p, daemon.net) then None else daemon.net)
        && old(daemon.calls) <= daemon.calls
        && forall x | x in daemon.calls[|old(daemon.calls)|..] :: x == Look
      ensures !checkMode ==>
        && existingNetwork == daemon.net
        && daemon.net == (if !CallsForNetwork(p, old(daemon.net)) then old(daemon.net)
                          else if ok then Some(Net(daemon.created, {})) else None)
        && exists emptied ::
          && Disconnects(emptied, if Recreates(p, old(daemon.net)) then old(daemon.net).value.members else {})
          && daemon.calls == old(daemon.calls) + RenewCalls(names, p, old(daemon.net), emptied)
    {
      hide Disconnects, Elems, Different, Differences, Buildable;
      ghost var net := daemon.net;
      ghost var log := daemon.calls;
      ghost var emptied: seq<Call> := [];
      NobodyDisconnected({});
      var different := false;
      var differences := [];
      if existingNetwork.Some? {
        different, differences := HasDifferentConfig(p, existingNetwork.value.config);
      }
      if p.force || different {
        var removed := RemoveNetwork();
        if net.Some? && !checkMode {
          emptied :| Disconnects(emptied, net.value.members) && daemon.calls == log + [Look] + emptied + [RemoveCall];
        }
        existingNetwork := None;
      }
      ghost var removing := if Recreates(p, net) then [Look] + emptied + [RemoveCall] else [];
      assert !checkMode ==> daemon.calls == log + removing;
      ok := CreateNetwork();
      if !checkMode { assert daemon.calls == log + RenewCalls(names, p, net, emptied); }
    }

    /** The second half: who is connected to it. */
    method Rewire() returns (ok: bool)
      requires !checkMode ==> existingNetwork.Some? && daemon.net == existingNetwork
      requires existingNetwork.Some? ==> daemon.net == existingNetwork
      modifies this`actions, this`changed, daemon
      ensures checkMode ==>
        && daemon.net == old(daemon.net) && (ok <==> existingNetwork.Some? || connected == [])
        && old(daemon.calls) <= daemon.calls
        && forall x | x in daemon.calls[|old(daemon.calls)|..] :: x == Look
      ensures checkMode && existingNetwork.Some? ==>
        var s := existingNetwork.value.members;
        (changed <==> old(changed) || !AllIn(connected, s) || (!p.appends && !(s <= Elems(connected))))
      ensures checkMode && existingNetwork.None? ==> changed == old(changed)
      ensures !checkMode ==>
        var s := existingNetwork.value.members;
        var c := ConnectAll(daemon.world, s, s, connected);
        var gone := if p.appends || !c.ok then {} else s - Elems(connected);
        && ok == c.ok && daemon.net == Some(Net(existingNetwork.value.config, c.members - gone))
        && (changed <==> old(changed) || c.members != s || gone != {})
        && exists left ::
          && Disconnects(left, gone)
          && daemon.calls == old(daemon.calls) + Connects(daemon.world, s, s, connected) + left + (if ok then [Look] else [])
    {
      hide Disconnects, Elems, Connectable, NewOnes, ConnectAll, Connects;
      NobodyDisconnected({});
      ghost var left: seq<Call> := [];
      ok := ConnectContainers();
      assert daemon.net.Some? ==> daemon.net.value.members - {} == daemon.net.value.members;
      if !ok {
        assert daemon.calls == daemon.calls + left + [];
        return;
      }
      ghost var before := daemon.calls;
      if existingNetwork.Some? { MinusEmptyIff(existingNetwork.value.members, Elems(connected)); }
      if !p.appends {
        if !checkMode {
          ConnectAllIs(daemon.world, existingNetwork.value.members, existingNetwork.value.members, connected);
        }
        ok := DisconnectMissing();
        if !checkMode {
          left :| Disconnects(left, existingNetwork.value.members - Elems(connected)) && daemon.calls == before + left;
        }
      }
      var facts := daemon.Inspect();
    }

    /** One run with state `present`, on the snapshot the constructor took. */
    method Present() returns (ok: bool)
      requires existingNetwork == daemon.net && !changed
      modifies this, daemon
      ensures connected == old(connected)
      ensures !checkMode ==>
        var out := PresentRun(daemon.world, names, daemon.created, p, connected, old(daemon.net));
        ok == out.ok && daemon.net == out.net && changed == out.changed
      ensures checkMode ==>
        var out := CheckRun(names, p, connected, old(daemon.net));
        ok == out.ok && daemon.net == out.net && changed == out.changed
      ensures old(daemon.calls) <= daemon.calls
      ensures var calls := daemon.calls[|old(daemon.calls)|..];
        if checkMode then forall x | x in calls :: x == Look
        else RunCalls(daemon.world, names, p, connected, old(daemon.net), calls)
    {
      hide Disconnects, Elems, Different, RenewCalls, ConnectAll, Connects, PresentRun, Buildable, RunCalls, GoesThrough;
      ghost var net := daemon.net;
      ghost var log := daemon.calls;
      ghost var emptied, left, rewiring: seq<Call> := [], [], [];
      NobodyDisconnected({});
      ok := Renew();
      if !checkMode {
        emptied :| Disconnects(emptied, if Recreates(p, net) then net.value.members else {})
          && daemon.calls == log + RenewCalls(names, p, net, emptied);
      }
      ghost var before := daemon.calls;
      PresentIs(daemon.world, names, daemon.created, p, connected, net);
      GoesIff(daemon.world, names, p, connected, net);
      if ok {
        ok := Rewire();
        if !checkMode {
          ghost var s := Snapshot(p, net);
          left :| Disconnects(left, if p.appends || !ok then {} else s - Elems(connected))
            && daemon.calls == before + Connects(daemon.world, s, s, connected) + left + (if ok then [Look] else []);
          rewiring := Connects(daemon.world, s, s, connected) + left + (if ok then [Look] else []);
          assert daemon.calls == before + rewiring;
        } else {
          assert daemon.calls[|log|..] == before[|log|..] + daemon.calls[|before|..];
        }
      }
      if !checkMode {
        assert daemon.calls == log + (RenewCalls(names, p, net, emptied) + rewiring);
        RunCallsAre(daemon.world, names, p, connected, net, emptied, left, rewiring);
      }
    }

    /** One run with state `absent`: never refused, and the network is gone. */
    method Absent() returns (ok: bool)
      requires existingNetwork == daemon.net && !changed
      modifies this`actions, this`changed, daemon
      ensures ok
      ensures !checkMode ==> Outcome(daemon.net, ok, changed) == AbsentRun(old(daemon.net))
      ensures checkMode ==> daemon.net == old(daemon.net) && (changed <==> daemon.net.Some?)
      ensures old(daemon.net).None? ==> daemon.calls == old(daemon.calls)
      ensures old(daemon.net).Some? && checkMode ==> daemon.calls == old(daemon.calls) + [Look]
      ensures old(daemon.net).Some? && !checkMode ==> exists emptied ::
        && Disconnects(emptied, old(daemon.net).value.members)
        && daemon.calls == old(daemon.calls) + [Look] + emptied + [RemoveCall]
    {
      ok := RemoveNetwork();
    }
  }

  lemma ElemsAppend(a: seq<string>, b: seq<string>)
    ensures Elems(a + b) == Elems(a) + Elems(b)
  {
  }

  lemma ElemsOfAll(a: seq<string>, b: seq<string>, c: seq<string>, d: seq<string>, e: seq<string>)
    ensures Elems(a + b + c + d + e) == Elems(a) + Elems(b) + Elems(c) + Elems(d) + Elems(e)
  {
    hide Elems;
    ElemsAppend(a, b);
    ElemsAppend(a + b, c);
    ElemsAppend(a + b + c, d);
    ElemsAppend(a + b + c + d, e);
  }

  lemma NamesAre(p: Params, c: Config, driver: seq<string>, options: seq<string>, ipam: seq<string>,
                 pools: seq<string>, ipv6: seq<string>)
    requires driver == if p.driver != "" && p.driver != c.driver then ["driver"] else []
    requires Elems(options) == DriverOptionNames(p, c) && Elems(pools) == PoolOptionNames(p, c)
    requires ipam == if p.ipamDriver != "" && (c.ipam.None? || c.ipam.value.driver != p.ipamDriver) then ["ipam_driver"] else []
    requires ipv6 == if p.ipv6 && !c.ipv6 then ["ipv6"] else []
    ensures Elems(driver + options + ipam + pools + ipv6) == Differences(p, c)
    ensures Different(p, c) <==> driver + options + ipam + pools + ipv6 != []
  {
    hide Different, DriverOptionNames, PoolOptionNames;
    ElemsOfAll(driver, options, ipam, pools, ipv6);
    assert Elems(driver) == if p.driver != "" && p.driver != c.driver then {"driver"} else {};
    assert Elems(ipam) ==
      if p.ipamDriver != "" && (c.ipam.None? || c.ipam.value.driver != p.ipamDriver) then {"ipam_driver"} else {};
    assert Elems(ipv6) == if p.ipv6 && !c.ipv6 then {"ipv6"} else {};
    hide Elems;
    SomeElem(driver + options + ipam + pools + ipv6);
    DifferentIffNamed(p, c);
  }

  lemma SomeElem(a: seq<string>)
    ensures a == [] <==> Elems(a) == {}
  {
    if a != [] { assert a[0] in Elems(a); }
  }

  lemma NobodyDisconnected(leaving: set<string>)
    requires leaving == {}
    ensures Disconnects([], leaving)
  {
  }

  lemma GoesIff(world: World, names: map<string, string>, p: Params, refs: seq<string>, net: Option<Net>)
    ensures GoesThrough(world, names, p, refs, net) <==>
      BuildsIfNeeded(names, p, net) && ConnectAll(world, Snapshot(p, net), Snapshot(p, net), refs).ok
  {
  }

  lemma RunCallsAre(world: World, names: map<string, string>, p: Params, refs: seq<string>, net: Option<Net>,
                    emptied: seq<Call>, left: seq<Call>, rewiring: seq<Call>)
    requires Disconnects(emptied, if Recreates(p, net) then net.value.members else {})
    requires Disconnects(left, if GoesThrough(world, names, p, refs, net) && !p.appends then Snapshot(p, net) - Elems(refs) else {})
    requires rewiring ==
      if !BuildsIfNeeded(names, p, net) then left
      else
        Connects(world, Snapshot(p, net), Snapshot(p, net), refs) + left
        + (if GoesThrough(world, names, p, refs, net) then [Look] else [])
    ensures RunCalls(world, names, p, refs, net, RenewCalls(names, p, net, emptied) + rewiring)
  {
    hide Disconnects, Snapshot, Elems, Recreates, ConnectAll, Connects, RenewCalls;
    assert Orders(world, names, p, refs, net, emptied, left);
    assert RenewCalls(names, p, net, emptied) + rewiring == CallsOf(world, names, p, refs, net, emptied, left);
  }

  lemma OneMoreDisconnected(done: seq<Call>, leaving: set<string>, todo: set<string>, name: string)
    requires name in todo && todo <= leaving && Disconnects(done, leaving - todo)
    ensures Disconnects(done + [DisconnectCall(name)], leaving - (todo - {name}))
  {
    var more := done + [DisconnectCall(name)];
    assert more[|done|] == DisconnectCall(name) && DisconnectCall(name) !in done;
  }

  lemma MinusOneMore(s: set<string>, leaving: set<string>, todo: set<string>, name: string)
    requires name in todo && todo <= leaving
    ensures s - (leaving - todo) - {name} == s - (leaving - (todo - {name}))
  {
  }

  lemma MinusEmptyIff(s: set<string>, t: set<string>)
    ensures s - t == {} <==> s <= t
  {
    forall x | x in s && s - t == {} ensures x in t { assert x !in s - t; }
  }

  lemma ConnectOneMore(world: World, snapshot: set<string>, refs: seq<string>, i: nat)
    requires i < |refs| && ConnectAll(world, snapshot, snapshot, refs[..i]).ok
    ensures var before := ConnectAll(world, snapshot, snapshot, refs[..i]);
      var after := ConnectAll(world, snapshot, snapshot, refs[..i + 1]);
      var calls := Connects(world, snapshot, snapshot, refs[..i]);
      var r := refs[i];
      && snapshot <= before.members
      && after == (if r in snapshot then before
                   else if r !in world || world[r] in before.members then Connecting(before.members, false)
                   else Connecting(before.members + {world[r]}, true))
      && Connects(world, snapshot, snapshot, refs[..i + 1]) == calls + (if r in snapshot then [] else [ConnectCall(r)])
  {
    assert refs[..i + 1][..i] == refs[..i];
    NoConnects(world, snapshot, snapshot, refs[..i]);
  }

  /** Once a prefix of the references is refused, so is the whole list, and nothing more is
      connected. */
  lemma {:induction false} FirstRefusal(world: World, snapshot: set<string>, members: set<string>, refs: seq<string>, n: nat)
    requires n <= |refs| && !ConnectAll(world, snapshot, members, refs[..n]).ok
    ensures ConnectAll(world, snapshot, members, refs) == ConnectAll(world, snapshot, members, refs[..n])
    ensures Connects(world, snapshot, members, refs) == Connects(world, snapshot, members, refs[..n])
  {
    if n == |refs| {
      assert refs[..n] == refs;
    } else {
      var k := |refs| - 1;
      assert refs[..k][..n] == refs[..n];
      FirstRefusal(world, snapshot, members, refs[..k], n);
    }
  }

  /** What the module promises, over two whole runs: distinct names and a daemon that keeps
      the settings give exactly the requested containers, and the second run, which takes its own
      snapshot, calls nothing that could change them. */
  method PresentTwice(daemon: Daemon, names: map<string, string>, p: Params) returns (changed: bool)
    requires NamesStandForThemselves(daemon.world) && ByName(daemon.world, p.connected) && Distinct(p.connected)
    requires daemon.net.Some? ==> forall m | m in daemon.net.value.members :: m in daemon.world && daemon.world[m] == m
    requires !p.appends && !p.force && Stores(names, p, daemon.created) && Findable(names, p)
    modifies daemon
    ensures !changed && daemon.net.Some?
    ensures daemon.net.value.members ==
      if p.connected == [] then (if old(daemon.net).Some? then old(daemon.net).value.members else {})
      else Elems(p.connected)
    ensures exists refs, calls ::
      && Targets(p, old(daemon.net), refs) && RunCalls(daemon.world, names, p, refs, old(daemon.net), calls)
      && daemon.calls == old(daemon.calls) + [Look] + calls + [Look, Look]
  {
    hide Different, Stores, Findable, RunCalls, Targets, PresentRun, Elems;
    ghost var before := daemon.net;
    ghost var log := daemon.calls;
    var first := new DockerNetworkManager(daemon, names, p, false);
    FirstRun(daemon.world, names, daemon.created, p, first.connected, before);
    var ok := first.Present();
    ghost var calls := daemon.calls[|log| + 1..];
    assert daemon.calls == log + [Look] + calls;
    ghost var now := daemon.net;
    ghost var sofar := daemon.calls;
    var second := new DockerNetworkManager(daemon, names, p, false);
    SecondRunSilentIff(daemon.world, names, daemon.created, p, first.connected, before, second.connected);
    ok := second.Present();
    UnchangedOnlyLooks(daemon.world, names, daemon.created, p, second.connected, now, daemon.calls[|sofar| + 1..]);
    assert daemon.calls == log + [Look] + calls + [Look, Look];
    changed := second.changed;
  }

  lemma FirstRun(world: World, names: map<string, string>, created: Config, p: Params, refs: seq<string>, net: Option<Net>)
    requires Targets(p, net, refs) && ByName(world, p.connected) && Distinct(p.connected)
    requires net.Some? ==> forall m | m in net.value.members :: m in world && world[m] == m
    requires !p.appends && Stores(names, p, created) && Findable(names, p)
    ensures ByName(world, refs) && !Different(p, created)
    ensures var out := PresentRun(world, names, created, p, refs, net);
      && out.ok && out.net.Some?
      && out.net.value.members ==
         if p.connected == [] then (if net.Some? then net.value.members else {}) else Elems(p.connected)
  {
    CreatedIsNotDifferent(names, p, created);
    StoresBuildable(names, p, created);
    hide Different, Stores, Findable, PresentRun, Buildable;
    forall r | r in refs ensures r in world && world[r] == r { assert r in Elems(refs); }
    MembershipReached(world, names, created, p, refs, net);
  }

  lemma StoresBuildable(names: map<string, string>, p: Params, created: Config)
    requires Stores(names, p, created)
    ensures Buildable(names, p)
  {
  }
}
