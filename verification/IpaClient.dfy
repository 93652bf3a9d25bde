/** The engine itself: `IPAClient` and `EnablableIPAClient` of lib/python/ipa.py, with the
    member functions of the client classes, acting on a server. */
module IpaClient {
  import opened Strings
  import opened IpaModel
  import opened Canonical
  import opened Changes
  import opened Rewrite
  import opened IpaServer
  import opened Requests
  import opened Effect
  import opened QueueEffect
  import opened Convergence

  const FIND_REQUEST := Request(Find, {}, map[])

  /** The other end of `_post_json`. */
  class Server {
    const c: Client
    const render: Obj -> Dict
    var obj: Option<Obj>
    var log: seq<Request>

    constructor (c: Client, render: Obj -> Dict, obj: Option<Obj>)
      ensures this.c == c && this.render == render && this.obj == obj && log == []
    {
      this.c, this.render, this.obj, this.log := c, render, obj, [];
    }

    /** What a `find` for the object would answer now. */
    function Answer(): Dict
      reads this`obj
    {
      match obj case None => map[] case Some(o) => render(o)
    }

    method PostFind() returns (reply: Dict, count: nat)
      modifies this`log
      ensures log == old(log) + [FIND_REQUEST]
      ensures reply == Answer() && (count > 0 <==> obj.Some?)
    {
      log := log + [FIND_REQUEST];
      reply := Answer();
      count := if obj.Some? then 1 else 0;
    }

    method Post(r: Request) returns (ok: bool)
      modifies this
      ensures log == old(log) + [r]
      ensures match Serve(c, old(obj), r)
        case Accepted(o1) => ok && obj == o1
        case Refused => !ok && obj == old(obj)
    {
      log := log + [r];
      match Serve(c, obj, r) {
        case Accepted(o1) => obj := o1; ok := true;
        case Refused => ok := false;
      }
    }
  }

  datatype SetOp = Difference | Intersection

  class IPAClient {
    const c: Client
    const state: State
    const checkMode: bool
    const params: Dict
    const server: Server

    var requests: seq<Request>
    var exists_: bool
    var responseCleaned: Dict
    var canonParams: Dict
    var diffs: Delta
    var changed: bool

    constructor (c: Client, state: State, checkMode: bool, params: Dict, server: Server)
      ensures this.c == c && this.state == state && this.checkMode == checkMode
      ensures this.params == params && this.server == server
      ensures requests == [] && !changed
    {
      this.c, this.state, this.checkMode, this.params, this.server := c, state, checkMode, params, server;
      requests, exists_, responseCleaned, canonParams := [], false, map[], map[];
      diffs, changed := Delta(map[], map[], map[]), false;
    }

    // ---------- canonical form ----------

    method Clean(dirty: Dict) returns (item: Option<Dict>)
      ensures item == CleanDict(c, dirty)
    {
      var res: Dict := map[];
      var todo := dirty.Keys;
      while todo != {}
        invariant todo <= dirty.Keys
        invariant forall k | k in dirty && k !in todo && k in c.paramData :: !CleanValue(c.paramData[k], dirty[k]).Raise?
        invariant res == map k | k in dirty && k !in todo && Kept(c, dirty, k) :: CleanValue(c.paramData[k], dirty[k]).v
      {
        var key :| key in todo;
        todo := todo - {key};
        if key !in c.paramData { continue; }
        var val := dirty[key];
        var ty := c.paramData[key];
        if ty == TList {
          var xs := if val.Many? then val.xs else [val.a];
          if xs == [] || xs[0] == Null { continue; }
          res := res[key := Many(xs)];
          continue;
        }
        if val == Many([]) {
          assert CleanValue(c.paramData[key], dirty[key]).Raise?;
          return None;
        }
        var a := if val.Many? then val.xs[0] else val.a;
        if a == Null { continue; }
        if ty == TBool && a.Str? {
          if Lower(a.s) == "true" {
            a := Bool(true);
          } else if Lower(a.s) == "false" {
            a := Bool(false);
          }
        }
        if ty == TInt && a.Str? {
          var n := ParseInt(a.s);
          if n.None? {
            assert CleanValue(c.paramData[key], dirty[key]).Raise?;
            return None;
          }
          a := Int(n.value);
        }
        res := res[key := One(a)];
      }
      assert !Raises(c, dirty);
      assert res == CleanDict(c, dirty).value;
      item := Some(res);
    }

    method MungePopRequestKeys(d: Dict) returns (item: Dict)
      ensures item == PopKeys(c, d)
    {
      item := d;
      var todo := d.Keys;
      while todo != {}
        invariant todo <= d.Keys
        invariant item == map k | k in d && (k in c.paramKeys ==> k in todo) :: d[k]
      {
        var k :| k in todo;
        todo := todo - {k};
        if k in c.paramKeys { item := item - {k}; }
      }
    }

    method MungeStateExactAddDefaults(d: Dict) returns (item: Dict)
      ensures item == ExactDefaults(c, state, d)
    {
      item := d;
      if state != Exact { return; }
      var todo := c.defaults.Keys;
      while todo != {}
        invariant todo <= c.defaults.Keys
        invariant item == (map k | k in c.defaults && k !in d && k !in todo :: One(c.defaults[k])) + d
      {
        var k :| k in todo;
        todo := todo - {k};
        if k in item { continue; }
        item := item[k := One(c.defaults[k])];
      }
    }

    /** The enable key is set last, by the subclass. */
    method MungeModuleParams() returns (r: Option<Dict>)
      ensures r == CanonParams(c, state, params)
    {
      var cleaned := Clean(params);
      if cleaned.None? { return None; }
      var item := MungePopRequestKeys(cleaned.value);
      item := MungeStateExactAddDefaults(item);
      if c.enableKey.Some? && (state == Enabled || state == Disabled) {
        var on := state == Enabled;
        if c.inverted { on := !on; }
        item := item[c.enableKey.value := One(Bool(on))];
      }
      r := Some(item);
    }

    /** caacl: reply keys like `memberuser_group` become `group`, in place and in whatever
        order; where two keys become one, the one renamed last stays. */
    method MungeResponseKeys(reply: Dict) returns (item: Dict)
      ensures Renaming(reply, item, {})
      ensures Unambiguous(reply) ==> item == ShortKeys(reply)
    {
      item := reply;
      var todo := reply.Keys;
      NothingRenamed(reply);
      while todo != {}
        invariant todo <= reply.Keys && Renaming(reply, item, todo)
      {
        var key :| key in todo;
        if CaaclLongKey(key) {
          LongKeyHasUnderscore(key);
          RenameStep(reply, item, todo, key);
          var newKey := SecondWord(key);
          var v := item[key];
          item := item - {key};
          item := item[newKey := v];
        } else {
          KeepStep(reply, item, todo, key);
        }
        todo := todo - {key};
      }
      AllRenamed(reply, item);
    }

    /** user: certificates lose their `__base64__` wrapping, one by one; `None` where the loop
        raises. */
    method MungeUserCerts(reply: Dict) returns (item: Option<Dict>)
      ensures item == UserCerts(reply)
    {
      if CERT !in reply { return Some(reply); }
      var iterated := Iterated(reply[CERT]);
      if iterated.None? { return None; }
      var vs := iterated.value;
      var certs := [];
      for i := 0 to |vs|
        invariant |certs| == i && forall j | 0 <= j < i :: certs[j] == Unwrap(vs[j])
      {
        if vs[i].B64? { certs := certs + [Str(vs[i].text)]; } else { certs := certs + [vs[i]]; }
      }
      assert certs == MapAtoms(Unwrap, vs);
      item := Some(reply[CERT := Many(certs)]);
    }

    /** user: the canonical name goes, the realm of the other principals too; `None` where that
        raises. */
    method MungeUserPrincipals(reply: Dict) returns (item: Option<Dict>)
      ensures item == UserPrincipals(reply)
    {
      if PRINCIPAL !in reply { return Some(reply); }
      var name := NameOf(reply);
      if reply[PRINCIPAL].One? {
        return if EmptyNames(reply[PRINCIPAL], name) then Some(reply) else None;
      }
      var xs := reply[PRINCIPAL].xs;
      if name.Some? && name.value.One? {
        RemoveAbsent(xs, name.value.a);
        if name.value.a in xs { xs := RemoveFirst(xs, name.value.a); }
      }
      var ys := xs;
      for i := 0 to |xs|
        invariant |ys| == |xs|
        invariant forall j | 0 <= j < |xs| :: ys[j] == if j < i then Principal(xs[j]) else xs[j]
        invariant forall j | 0 <= j < i :: xs[j].Str?
      {
        if !xs[i].Str? {
          assert xs[i] in xs;
          return None;
        }
        ys := ys[i := Principal(ys[i])];
      }
      assert ys == MapAtoms(Principal, xs);
      item := Some(reply[PRINCIPAL := Many(ys)]);
    }

    method MungeResponse(reply: Dict) returns (r: Option<Dict>)
      ensures (c.kind == Caacl ==> Unambiguous(reply)) ==> r == CanonReply(c, params, reply)
      ensures c.kind == Caacl ==> exists d :: Renaming(reply, d, {}) && r == CleanReply(c, d)
    {
      var d := reply;
      if c.kind == Caacl {
        d := MungeResponseKeys(d);
      } else if c.kind == User {
        var certs := MungeUserCerts(d);
        if certs.None? { return None; }
        var names := MungeUserPrincipals(certs.value);
        if names.None? { return None; }
        d := names.value;
      }
      var cleaned := Clean(d);
      if cleaned.None? { return None; }
      d := MungePopRequestKeys(cleaned.value);
      if c.kind == Service {
        d := ServiceCert(d);
        return ServicePrincipals(d, CanonicalName(params));
      }
      r := Some(d);
    }

    // ---------- diffs ----------

    method GetSlice(d: Dict) returns (s: Slice)
      requires Shaped(c, d)
      ensures s == Canonical.GetSlice(c, d)
    {
      s := NOTHING;
      var todo := d.Keys;
      while todo != {}
        invariant todo <= d.Keys
        invariant s.scalars == map k | k in d && k !in todo && !IsList(c, k) && d[k].One? :: d[k].a
        invariant s.lists == map k | k in d && k !in todo && IsList(c, k) && d[k].Many? :: Elems(d[k].xs)
      {
        var key :| key in todo;
        todo := todo - {key};
        if IsList(c, key) {
          s := s.(lists := s.lists[key := Elems(d[key].xs)]);
        } else {
          s := s.(scalars := s.scalars[key := d[key].a]);
        }
      }
    }

    /** `op`: difference or intersection, key by key over both dicts. */
    method Op(a: Lists, b: Lists, which: SetOp) returns (res: Lists)
      ensures res == if which == Difference then Minus(a, b) else Common(a, b)
    {
      res := map[];
      ghost var goal := if which == Difference then Minus(a, b) else Common(a, b);
      var todo := a.Keys + b.Keys;
      while todo != {}
        invariant todo <= a.Keys + b.Keys
        invariant res == map k | k in goal && k !in todo :: goal[k]
      {
        var key :| key in todo;
        todo := todo - {key};
        var vals := if which == Difference then Get(a, key) - Get(b, key) else Get(a, key) * Get(b, key);
        if vals != {} { res := res[key := vals]; }
      }
    }

    method ComputeScalarChanges(change: Scalars, curr: Scalars) returns (scalars: Scalars)
      ensures scalars == ScalarChanges(c, state, change, curr)
    {
      if state != Absent {
        var keys := change.Keys - curr.Keys;
        keys := keys + set k | k in change && k in curr && change[k] != curr[k];
        if state == Exact { keys := keys + (curr.Keys - (change.Keys + c.defaults.Keys)); }
        assert keys == ScalarKeys(c, state, change, curr);
        scalars := TakeScalars(keys, change);
      } else {
        scalars := DefaultScalars(change, curr);
      }
    }

    method TakeScalars(keys: set<string>, change: Scalars) returns (scalars: Scalars)
      ensures scalars == map k | k in keys :: if k in change then change[k] else Default(c, k)
    {
      scalars := map[];
      var todo := keys;
      while todo != {}
        invariant todo <= keys && scalars.Keys == keys - todo
        invariant forall k | k in scalars :: scalars[k] == if k in change then change[k] else Default(c, k)
      {
        var k :| k in todo;
        todo := todo - {k};
        scalars := scalars[k := if k in change then change[k] else Default(c, k)];
      }
    }

    method DefaultScalars(change: Scalars, curr: Scalars) returns (scalars: Scalars)
      ensures scalars ==
        map k | k in change && change[k] == (if k in curr then curr[k] else Null) :: Default(c, k)
    {
      scalars := map[];
      var todo := change.Keys;
      while todo != {}
        invariant todo <= change.Keys
        invariant forall k :: k in scalars <==>
          k in change && k !in todo && change[k] == (if k in curr then curr[k] else Null)
        invariant forall k | k in scalars :: scalars[k] == Default(c, k)
      {
        var k :| k in todo;
        todo := todo - {k};
        if change[k] == (if k in curr then curr[k] else Null) {
          scalars := scalars[k := Default(c, k)];
        }
      }
    }

    method ComputeChanges(change: Slice, curr: Slice) returns (d: Delta)
      ensures d == Changes.ComputeChanges(c, state, change, curr)
    {
      var add: Lists, del: Lists := map[], map[];
      if state != Absent { add := Op(change.lists, curr.lists, Difference); }
      if state == Exact { del := Op(curr.lists, change.lists, Difference); }
      if state == Absent { del := Op(change.lists, curr.lists, Intersection); }
      var scalars := ComputeScalarChanges(change.scalars, curr.scalars);
      d := Delta(scalars, add, del);
    }

    // ---------- find ----------

    /** Canonical parameters, the `find` request, the canonical reply and the delta. On an
        exception nothing is queued; bad parameters are noticed before anything is posted. */
    method Find(ghost seen: Option<Obj>) returns (ok: bool)
      requires server.c == c
      requires CanonParams(c, state, params).Some? ==> Shaped(c, CanonParams(c, state, params).value)
      requires Represents(c, params, server.Answer(), seen) && (seen.Some? <==> server.obj.Some?)
      modifies this, server`log
      ensures ok <==> CanonParams(c, state, params).Some?
      ensures server.log == old(server.log) + (if ok then [FIND_REQUEST] else [])
      ensures changed == old(changed)
      ensures ok ==>
        && canonParams == CanonParams(c, state, params).value
        && (exists_ <==> seen.Some?)
        && (responseCleaned == map[] <==> ViewOf(c, seen) == NOTHING)
        && diffs == Changes.ComputeChanges(c, state, Canonical.GetSlice(c, canonParams), ViewOf(c, seen))
        && requests == old(requests) + [FIND_REQUEST]
    {
      hide CanonParams, CanonReply, Unambiguous, ViewOf, Canonical.GetSlice;
      var canon := MungeModuleParams();
      if canon.None? { return false; }
      canonParams := canon.value;
      requests := requests + [FIND_REQUEST];
      var reply, count := server.PostFind();
      exists_ := count > 0;
      var response := MungeResponse(reply);
      responseCleaned := response.value;
      EmptySlice(c, responseCleaned);
      var want := GetSlice(canonParams);
      var have := GetSlice(responseCleaned);
      diffs := ComputeChanges(want, have);
      ok := true;
    }

    // ---------- add_or_mod ----------

    method ModRewriteListChanges(before: Item) returns (item: Item)
      requires forall k | k in before && before[k].Grouped? :: AttrKey(k)
      requires forall k | k in before && before[k].Grouped? :: Writable(before[k].m) && before[k].m != map[]
      ensures item == Rewritten(before)
    {
      item := before;
      var todo := before.Keys;
      while todo != {}
        invariant todo <= before.Keys && item.Keys == before.Keys
        invariant forall k | k in before :: item[k] == if k in todo then before[k] else RewrittenVal(k, before[k])
      {
        var key :| key in todo;
        todo := todo - {key};
        if AttrKey(key) && item[key].Grouped? {
          var m := item[key].m;
          item := item - {key};
          var lines := RewriteLists(m);
          item := item[key := Lines(lines)];
        }
      }
      item := item[ALL := Val(Bool(true))];
    }

    /** One `key=value` line per value, in whatever order the dicts yield them; the list is
        sorted again after each attribute. */
    method RewriteLists(m: Lists) returns (lines: seq<string>)
      requires Writable(m)
      ensures lines == Listing(LinesOf(m))
    {
      lines := [];
      var keys := m.Keys;
      while keys != {}
        invariant keys <= m.Keys
        invariant Strings.Lists(lines, LinesOf(map k | k in m && k !in keys :: m[k]))
      {
        var k :| k in keys;
        ghost var done := map l | l in m && l !in keys :: m[l];
        keys := keys - {k};
        lines := AppendLines(m, done, k, lines);
        LinesOfOneMore(m, done, k);
        assert done[k := m[k]] == map l | l in m && l !in keys :: m[l];
        SortLists(lines, LinesOf(done[k := m[k]]));
        lines := Sort(lines);
      }
      assert m == map l | l in m && l !in keys :: m[l];
      ListingUnique(lines, Listing(LinesOf(m)), LinesOf(m));
    }

    method AppendLines(m: Lists, ghost done: Lists, k: string, start: seq<string>) returns (lines: seq<string>)
      requires Writable(m) && k in m && forall l | l in done :: l in m && l != k && done[l] == m[l]
      requires Distinct(start) && Elems(start) == LinesOf(done)
      ensures Distinct(lines) && Elems(lines) == LinesOf(done) + LinesOf(map[k := m[k]])
    {
      lines := start;
      var vals := m[k];
      ghost var seen: set<Atom> := {};
      assert LinesOf(map[k := seen]) == {};
      while vals != {}
        invariant vals + seen == m[k] && vals !! seen
        invariant Distinct(lines) && Elems(lines) == LinesOf(done) + LinesOf(map[k := seen])
        decreases vals
      {
        var v :| v in vals;
        LineIsNew(m, done, k, v, seen);
        LinesGrow(k, seen, v);
        vals, seen := vals - {v}, seen + {v};
        DistinctSnoc(lines, Line(k, v));
        lines := lines + [Line(k, v)];
      }
      assert seen == m[k];
    }

    method PickLists(m: Lists) returns (r: Lists)
      ensures r == Restrict(m, c.baseKeys)
    {
      r := map[];
      var todo := m.Keys;
      while todo != {}
        invariant todo <= m.Keys
        invariant r == map k | k in m && k !in todo && k in c.baseKeys :: m[k]
      {
        var k :| k in todo;
        todo := todo - {k};
        if k in c.baseKeys { r := r[k := m[k]]; }
      }
    }

    method PutScalars(start: Item) returns (item: Item)
      ensures item == start + (map k | k in diffs.scalars && k in c.baseKeys :: Val(diffs.scalars[k]))
    {
      item := start;
      var todo := diffs.scalars.Keys;
      while todo != {}
        invariant todo <= diffs.scalars.Keys
        invariant item == start + (map k | k in diffs.scalars && k !in todo && k in c.baseKeys :: Val(diffs.scalars[k]))
      {
        var k :| k in todo;
        todo := todo - {k};
        if k in c.baseKeys { item := item[k := Val(diffs.scalars[k])]; }
      }
    }

    method BuildItem() returns (item: Item)
      ensures item == ChangedItem(c, diffs)
    {
      var adds := PickLists(diffs.listAdd);
      var dels := PickLists(diffs.listDel);
      item := map[];
      if adds != map[] { item := item[ADDATTR := Grouped(adds)]; }
      if dels != map[] { item := item[DELATTR := Grouped(dels)]; }
      item := PutScalars(item);
    }

    method AddOrMod()
      requires ValidNames(c) && Sound(c, diffs)
      modifies this`requests
      ensures requests == old(requests) + BaseQueue(c, diffs, responseCleaned == map[], exists_)
    {
      var item := BuildItem();
      if item == map[] && exists_ { return; }
      ItemRewritable(c, diffs);
      item := item[ALL := Val(Bool(true))];
      var rewritten := ModRewriteListChanges(item);
      var r := Request(if responseCleaned == map[] then Add else Mod, {}, rewritten);
      requests := requests + [r];
    }

    // ---------- rem ----------

    /** The result says whether to stop queueing. */
    method Rem() returns (stop: bool)
      modifies this`requests
      ensures stop <==> state == Absent && canonParams == map[]
      ensures requests == old(requests) +
        (if stop && responseCleaned != map[] && !checkMode then [REM_REQUEST] else [])
    {
      if state != Absent { return false; }
      if canonParams != map[] { return false; }
      if responseCleaned == map[] { return true; }
      if checkMode { return true; }
      requests := requests + [REM_REQUEST];
      stop := true;
    }

    // ---------- enable_or_disable ----------

    method EnableOrDisable()
      modifies this`requests
      ensures requests == old(requests) + EnableQueue(c, state, checkMode, diffs, responseCleaned == map[])
    {
      if c.enableKey.None? || c.enableKey.value !in diffs.scalars { return; }
      if responseCleaned == map[] || (state != Enabled && state != Disabled) { return; }
      if checkMode { return; }
      var enable := diffs.scalars[c.enableKey.value] == Bool(true);
      if c.inverted { enable := !enable; }
      requests := requests + [Request(if enable then Enable else Disable, {}, map[])];
    }

    // ---------- member requests ----------

    /** `add_remove_list_items`, `handle_members`, `handle_cert`, `handle_principal`,
        `handle_managedby_host`, `handle_allow_keytab`: one pass over the class's table. */
    method HandleRoutes()
      requires AllUnderstood(c.routes)
      modifies this`requests, this`changed
      ensures requests == old(requests) + RouteQueue(c.routes, checkMode, diffs)
      ensures changed == (old(changed) || Marked(c.routes, diffs))
    {
      for i := 0 to |c.routes|
        invariant requests == old(requests) + RouteQueue(c.routes[..i], checkMode, diffs)
        invariant changed == (old(changed) || Marked(c.routes[..i], diffs))
      {
        HandleRoute(c.routes[i]);
        RouteSnoc(c.routes, i, checkMode, diffs);
      }
      assert c.routes[..|c.routes|] == c.routes;
    }

    method HandleRoute(rt: Route)
      requires Understood(rt)
      modifies this`requests, this`changed
      ensures requests == old(requests) + (if RouteActive(rt, diffs) && !checkMode then [RouteRequest(rt, diffs)] else [])
      ensures changed == (old(changed) || (rt.marks && RouteActive(rt, diffs)))
    {
      var item: Item, extra: set<Atom>, any: bool := map[], {}, false;
      if rt.carrier == NameArgument {
        extra, any := CollectNames(rt);
      } else {
        item, any := CollectMembers(rt, MemberReading(rt.meth).value);
      }
      if !any { return; }
      if rt.marks { changed := true; }
      if checkMode { return; }
      item := item[ALL := Val(Bool(true))];
      requests := requests + [Request(rt.meth, extra, item)];
    }

    /** One row: the delta's values for each of its attributes, under its item key. */
    method CollectMembers(rt: Route, ghost rd: Reading) returns (item: Item, any: bool)
      requires Agrees(rt, rd) && rt.carrier != NameArgument
      ensures any <==> RouteActive(rt, diffs)
      ensures item[ALL := Val(Bool(true))] == RouteItem(rt, diffs)
    {
      item, any := map[], false;
      var from := FromList(diffs, rt.from);
      var todo := rt.fields.Keys;
      while todo != {}
        invariant todo <= rt.fields.Keys
        invariant any <==> exists a | a in rt.fields && a !in todo :: a in from
        invariant forall f | f in item :: f in rd.attrs && rd.attrs[f] !in todo && rd.attrs[f] in from
        invariant forall a | a in rt.fields && a !in todo && a in from ::
          rt.fields[a] in item && item[rt.fields[a]] == Members(EncodedAll(rt.carrier, from[a]))
      {
        var attr :| attr in todo;
        todo := todo - {attr};
        if attr !in from { continue; }
        any := true;
        var vals := from[attr];
        item := item[rt.fields[attr] := Members(EncodedAll(rt.carrier, vals))];
      }
      ItemCollected(rt, rd, diffs, item);
    }

    /** One row whose values go with the object's name. */
    method CollectNames(rt: Route) returns (extra: set<Atom>, any: bool)
      requires rt.carrier == NameArgument
      ensures any <==> RouteActive(rt, diffs)
      ensures extra == RouteExtra(rt, diffs)
    {
      extra, any := {}, false;
      var from := FromList(diffs, rt.from);
      var todo := rt.fields.Keys;
      while todo != {}
        invariant todo <= rt.fields.Keys
        invariant any <==> exists a | a in rt.fields && a !in todo :: a in from
        invariant extra == ExtraOf(rt.fields.Keys - todo, from)
      {
        var attr :| attr in todo;
        ExtraGrows(rt.fields.Keys - todo, attr, from);
        assert rt.fields.Keys - (todo - {attr}) == rt.fields.Keys - todo + {attr};
        todo := todo - {attr};
        if attr !in from { continue; }
        any := true;
        extra := extra + from[attr];
      }
      assert rt.fields.Keys - todo == rt.fields.Keys;
    }

    // ---------- main functions ----------

    /** What `queue_requests` appends, given what `find` has stored. */
    ghost function Queued(): seq<Request>
      reads this
    {
      QueueFrom(c, state, checkMode, diffs, state == Absent && canonParams == map[], responseCleaned == map[], exists_)
    }

    method QueueRequests()
      requires ValidNames(c) && AllUnderstood(c.routes) && Sound(c, diffs)
      modifies this`requests, this`changed
      ensures requests == old(requests + Queued())
      ensures changed == (old(changed) || (!(state == Absent && canonParams == map[]) && Marked(c.routes, diffs)))
    {
      hide BaseQueue, EnableQueue, RouteQueue, Marked, ValidNames, AllUnderstood, Sound;
      var stop := Rem();
      if stop { return; }
      AddOrMod();
      EnableOrDisable();
      HandleRoutes();
    }

    /** Post everything after `find`, up to the first refusal. */
    method ProcessQueue() returns (ok: bool)
      requires server.c == c && requests != []
      modifies server, this`changed
      ensures checkMode ==> ok && server.obj == old(server.obj) && server.log == old(server.log)
      ensures !checkMode && ok ==>
        && ServeAll(c, old(server.obj), requests[1..]) == Accepted(server.obj)
        && server.log == old(server.log) + requests[1..]
      ensures ok ==> changed == (old(changed) || |requests| > 1)
      ensures !ok ==> !checkMode && exists i | 1 <= i < |requests| ::
        && ServeAll(c, old(server.obj), requests[1..i]) == Accepted(server.obj)
        && Serve(c, server.obj, requests[i]) == Refused
        && server.log == old(server.log) + requests[1..i + 1]
    {
      for i := 1 to |requests|
        invariant checkMode ==> server.obj == old(server.obj) && server.log == old(server.log)
        invariant !checkMode ==>
          && ServeAll(c, old(server.obj), requests[1..i]) == Accepted(server.obj)
          && server.log == old(server.log) + requests[1..i]
        invariant changed == (old(changed) || i > 1)
      {
        assert requests[1..i + 1] == requests[1..i] + [requests[i]];
        if !checkMode {
          ServeAppend(c, old(server.obj), requests[1..i], [requests[i]]);
          ServeOne(c, server.obj, requests[i]);
          var accepted := server.Post(requests[i]);
          if !accepted { return false; }
        }
        changed := true;
      }
      assert requests[1..|requests|] == requests[1..];
      ok := true;
    }

    /** What a run wants, when its parameters are in order. */
    ghost function Desired(): Slice
      requires CanonParams(c, state, params).Some?
    {
      Canonical.GetSlice(c, CanonParams(c, state, params).value)
    }

    /** The run can start: a fresh client of a well-formed class, typed parameters, a
        server that answers `find` with some spelling of `seen`, normally its object. */
    ghost predicate Ready(seen: Option<Obj>)
      reads this, server
    {
      && ValidClient(c) && server.c == c && requests == [] && !changed
      && (state in {Enabled, Disabled} ==> c.enableKey.Some?)
      && TypedParams(c, params)
      && (seen.Some? <==> server.obj.Some?) && (seen.Some? ==> WellTyped(c, seen.value))
      && Represents(c, params, server.Answer(), seen)
    }

    /** The first two steps of a run: `find`, then queue what the delta asks for. */
    method Plan(ghost seen: Option<Obj>) returns (ok: bool)
      requires Ready(seen)
      modifies this, server`log
      ensures ok <==> CanonParams(c, state, params).Some?
      ensures server.log == old(server.log) + (if ok then [FIND_REQUEST] else [])
      ensures server.c == c
      ensures ok ==> Setting(c, state, Desired(), seen)
      ensures ok ==> requests == [FIND_REQUEST] + Queue(c, state, checkMode, Desired(), seen)
      ensures ok ==> changed == MarksChanged(c, state, Desired(), seen)
    {
      hide ValidClient, Setting, ValidNames, AllUnderstood, Sound, TypedParams, WellTyped, Represents, CanonParams;
      hide Marked, View, Canonical.GetSlice, BaseQueue, EnableQueue, RouteQueue, Changes.ComputeChanges;
      if CanonParams(c, state, params).Some? { EnsureFacts(c, state, params, seen); }
      ok := Find(seen);
      if !ok { return; }
      EmptySlice(c, canonParams);
      QueueRequests();
    }

    /** One run on a reply that stands for `seen`: what is queued follows from that, and what
        becomes of the object from the server. A run is cut short at the first refusal. */
    method EnsureSeen(ghost seen: Option<Obj>) returns (ok: bool)
      requires Ready(seen)
      modifies this, server
      ensures CanonParams(c, state, params).None? ==>
        !ok && server.obj == old(server.obj) && server.log == old(server.log)
      ensures CanonParams(c, state, params).Some? ==>
        var q := Queue(c, state, checkMode, Desired(), seen);
        && (ok ==> requests == [FIND_REQUEST] + q && changed == (q != [] || MarksChanged(c, state, Desired(), seen)))
        && (checkMode ==> ok && server.obj == old(server.obj) && server.log == old(server.log) + [FIND_REQUEST])
        && (!checkMode && ok ==>
              ServeAll(c, old(server.obj), q) == Accepted(server.obj) && server.log == old(server.log) + [FIND_REQUEST] + q)
        && (!ok ==> !checkMode && Setting(c, state, Desired(), seen) && exists i | 0 <= i < |q| ::
              && ServeAll(c, old(server.obj), q[..i]) == Accepted(server.obj)
              && Serve(c, server.obj, q[i]) == Refused
              && server.log == old(server.log) + [FIND_REQUEST] + q[..i + 1])
    {
      hide *;
      ok := Plan(seen);
      if !ok { return; }
      assert requests[1..] == Queue(c, state, checkMode, Desired(), seen);
      label Planned:
      ok := ProcessQueue();
      if !ok {
        ghost var i :| 1 <= i < |requests| && ServeAll(c, old(server.obj), requests[1..i]) == Accepted(server.obj)
          && Serve(c, server.obj, requests[i]) == Refused && server.log == old@Planned(server.log) + requests[1..i + 1];
        ghost var q := requests[1..];
        assert q[i - 1] == requests[i] && q[..i - 1] == requests[1..i] && q[..i] == requests[1..i + 1];
      }
    }

    /** One run. Parameters that cannot be made canonical fail it before anything is posted;
        otherwise it does what `Run` says: the object, the queue that is posted after `find`
        (nothing of it in check mode) and `changed`. A refused run leaves the object alone. */
    method Ensure() returns (ok: bool)
      requires Ready(server.obj)
      modifies this, server
      ensures CanonParams(c, state, params).None? ==>
        !ok && server.obj == old(server.obj) && server.log == old(server.log)
      ensures CanonParams(c, state, params).Some? ==>
        match Run(c, state, checkMode, Desired(), old(server.obj))
        case Done(o1, q, ch) =>
          && ok && server.obj == o1 && changed == ch
          && requests == [FIND_REQUEST] + q
          && server.log == old(server.log) + [FIND_REQUEST] + (if checkMode then [] else q)
        case Failed =>
          && !ok && server.obj == old(server.obj)
          && server.log == old(server.log) + Refusal(Queue(c, state, checkMode, Desired(), old(server.obj)))
    {
      hide *;
      ghost var before := server.obj;
      ok := EnsureSeen(before);
      if CanonParams(c, state, params).Some? {
        RunIs(c, state, checkMode, Desired(), before);
        if !ok { RefusedFirst(c, state, Desired(), before, server.obj, Queue(c, state, false, Desired(), before)); }
      }
    }
  }

  lemma EnsureFacts(c: Client, st: State, params: Dict, o: Option<Obj>)
    requires ValidClient(c) && TypedParams(c, params) && CanonParams(c, st, params).Some?
    requires st in {Enabled, Disabled} ==> c.enableKey.Some?
    requires o.Some? ==> WellTyped(c, o.value)
    ensures var canon := CanonParams(c, st, params).value;
      var want := Canonical.GetSlice(c, canon);
      && Shaped(c, canon) && Setting(c, st, want, o) && ValidNames(c) && AllUnderstood(c.routes)
      && Sound(c, DeltaOf(c, st, want, o))
  {
    hide Wanted, Shaped, Sound, Canonical.GetSlice, WellTyped, TypedParams, CanonParams;
    CanonicalWanted(c, st, params);
    SettingGives(c, st, Canonical.GetSlice(c, CanonParams(c, st, params).value), o);
  }

  lemma RunIs(c: Client, st: State, check: bool, want: Slice, o: Option<Obj>)
    ensures var q := Queue(c, st, check, want, o);
      var ch := q != [] || MarksChanged(c, st, want, o);
      Run(c, st, check, want, o) ==
        if check then Done(o, q, ch)
        else match ServeAll(c, o, q) case Refused => Failed case Accepted(o1) => Done(o1, q, ch)
  {
  }

  /** What a refused run posts: `find`, and the first request of its queue. */
  function Refusal(q: seq<Request>): seq<Request> {
    [FIND_REQUEST] + (if q == [] then [] else [q[0]])
  }

  /** Only the first request can be refused, so a refused run has changed nothing. */
  lemma RefusedFirst(c: Client, st: State, want: Slice, o: Option<Obj>, o1: Option<Obj>, q: seq<Request>)
    requires Setting(c, st, want, o) && q == Queue(c, st, false, want, o)
    requires exists i | 0 <= i < |q| ::
      ServeAll(c, o, q[..i]) == Accepted(o1) && Serve(c, o1, q[i]) == Refused
    ensures o1 == o && Run(c, st, false, want, o) == Failed
    ensures forall i | 0 <= i < |q| && ServeAll(c, o, q[..i]) == Accepted(o1) && Serve(c, o1, q[i]) == Refused ::
      i == 0 && [FIND_REQUEST] + q[..i + 1] == Refusal(q)
  {
    hide Setting, Run, Queue, Serve;
    RunIs(c, st, false, want, o);
    forall i | 0 <= i < |q| && ServeAll(c, o, q[..i]) == Accepted(o1) && Serve(c, o1, q[i]) == Refused
      ensures i == 0 && Run(c, st, false, want, o) == Failed && o1 == o
    {
      PrefixRefused(c, o, q, i);
      RefusedIff(c, st, want, o);
      BlockedRefusesFirst(c, st, want, o);
      if i > 0 { PrefixRefused(c, o, q[..i], 0); }
    }
  }

  /** A refusal in a queue refuses the whole of it. */
  lemma {:induction false} PrefixRefused(c: Client, o: Option<Obj>, q: seq<Request>, i: nat)
    requires i < |q| && ServeAll(c, o, q[..i]).Accepted? && Serve(c, ServeAll(c, o, q[..i]).obj, q[i]) == Refused
    ensures ServeAll(c, o, q) == Refused
  {
    var n := |q| - 1;
    if i < n {
      assert q[..n][..i] == q[..i];
      PrefixRefused(c, o, q[..n], i);
    }
  }

  lemma BlockedRefusesFirst(c: Client, st: State, want: Slice, o: Option<Obj>)
    requires Setting(c, st, want, o) && Run(c, st, false, want, o) == Failed
    ensures var q := Queue(c, st, false, want, o);
      q != [] && Serve(c, o, q[0]) == Refused && ServeAll(c, o, q[..0]) == Accepted(o)
  {
    hide Setting, Run, WantsBase, EnableQueue, RouteQueue, DeltaOf, ChangedItem, BaseRequest, EnableActive;
    RefusedIff(c, st, want, o);
    BlockedWhenBase(c, st, want, o);
    assert Blocked(c, st, want, o) && o.Some?;
    AddFirst(c, st, want, o);
  }

  lemma AddFirst(c: Client, st: State, want: Slice, o: Option<Obj>)
    requires Blocked(c, st, want, o) && !RemovesObject(st, want)
    ensures var q := Queue(c, st, false, want, o); q != [] && q[0].meth == Add
  {
    hide EnableQueue, RouteQueue, ChangedItem, Changes.ComputeChanges;
  }

  /** The item handed to `mod_rewrite_list_changes` can be rewritten. */
  lemma ItemRewritable(c: Client, d: Delta)
    requires ValidNames(c) && Sound(c, d)
    ensures var item := ChangedItem(c, d)[ALL := Val(Bool(true))];
      forall k | k in item && item[k].Grouped? :: AttrKey(k) && Writable(item[k].m) && item[k].m != map[]
  {
    ChangedItemShape(c, d);
  }

  function EncodedAll(carrier: Carrier, vs: set<Atom>): set<Atom> {
    set v | v in vs :: Encoded(carrier, v)
  }

  lemma ItemCollected(rt: Route, rd: Reading, d: Delta, item: Item)
    requires Agrees(rt, rd) && rt.carrier != NameArgument
    requires forall f | f in item :: f in rd.attrs && rd.attrs[f] in FromList(d, rt.from)
    requires forall a | a in rt.fields && a in FromList(d, rt.from) ::
      rt.fields[a] in item && item[rt.fields[a]] == Members(EncodedAll(rt.carrier, FromList(d, rt.from)[a]))
    ensures item[ALL := Val(Bool(true))] == RouteItem(rt, d)
  {
    var from := FromList(d, rt.from);
    forall a | a in rt.fields && a in from
      ensures FieldValues(rt, d, rt.fields[a]) == EncodedAll(rt.carrier, from[a])
    {
      assert forall b | b in rt.fields && rt.fields[b] == rt.fields[a] :: b == rd.attrs[rt.fields[a]] == a;
    }
    assert FieldsOf(rt, d) == item.Keys by {
      forall f ensures f in FieldsOf(rt, d) <==> f in item {
        if f in item { assert rt.fields[rd.attrs[f]] == f; }
      }
    }
    forall f | f in item ensures item[f] == Members(FieldValues(rt, d, f)) {
      assert rt.fields[rd.attrs[f]] == f;
    }
  }

  ghost function ExtraOf(attrs: set<string>, from: Lists): set<Atom> {
    set a, v | a in attrs && v in Get(from, a) :: v
  }

  lemma ExtraGrows(attrs: set<string>, a: string, from: Lists)
    ensures ExtraOf(attrs + {a}, from) == ExtraOf(attrs, from) + Get(from, a)
  {
  }

  lemma DistinctSnoc(xs: seq<string>, x: string)
    requires Distinct(xs) && x !in Elems(xs)
    ensures Distinct(xs + [x]) && Elems(xs + [x]) == Elems(xs) + {x}
  {
  }

  lemma LineIsNew(m: Lists, done: Lists, k: string, v: Atom, seen: set<Atom>)
    requires Writable(m) && k in m && v in m[k] && seen <= m[k] && v !in seen
    requires forall l | l in done :: l in m && l != k && done[l] == m[l]
    ensures Line(k, v) !in LinesOf(done) + LinesOf(map[k := seen])
  {
    forall l, w | l in done && w in done[l] ensures Line(l, w) != Line(k, v) {
      if Line(l, w) == Line(k, v) { LineInjective(l, w, k, v); }
    }
    forall w | w in seen ensures Line(k, w) != Line(k, v) {
      if Line(k, w) == Line(k, v) { LineInjective(k, w, k, v); }
    }
  }

  lemma LinesGrow(k: string, seen: set<Atom>, v: Atom)
    ensures LinesOf(map[k := seen + {v}]) == LinesOf(map[k := seen]) + {Line(k, v)}
  {
    var m := map[k := seen + {v}];
    assert m[k] == seen + {v};
    assert Line(k, v) in LinesOf(m);
  }

  lemma LinesOfOneMore(m: Lists, done: Lists, k: string)
    requires k in m && k !in done
    ensures LinesOf(done[k := m[k]]) == LinesOf(done) + LinesOf(map[k := m[k]])
  {
    var all := done[k := m[k]];
    forall l ensures l in LinesOf(all) <==> l in LinesOf(done) + LinesOf(map[k := m[k]]) {
      if l in LinesOf(done) {
        var a, v :| a in done && v in done[a] && l == Line(a, v);
        assert a in all && v in all[a];
      }
    }
  }

  lemma RouteSnoc(routes: seq<Route>, i: nat, check: bool, d: Delta)
    requires i < |routes|
    ensures RouteQueue(routes[..i + 1], check, d) == RouteQueue(routes[..i], check, d) +
      (if RouteActive(routes[i], d) && !check then [RouteRequest(routes[i], d)] else [])
    ensures Marked(routes[..i + 1], d) <==> Marked(routes[..i], d) || (routes[i].marks && RouteActive(routes[i], d))
  {
    var s := routes[..i + 1];
    assert s[..|s| - 1] == routes[..i];
    assert s[i] == routes[i];
    if Marked(s, d) {
      var j :| 0 <= j < |s| && s[j].marks && RouteActive(s[j], d);
      if j < i { assert routes[..i][j] == s[j]; }
    }
    if Marked(routes[..i], d) {
      var j :| 0 <= j < i && routes[..i][j].marks && RouteActive(routes[..i][j], d);
      assert s[j] == routes[..i][j];
    }
  }

  lemma RemoveAbsent(xs: seq<Atom>, x: Atom)
    ensures x !in xs ==> RemoveFirst(xs, x) == xs
  {
  }

  /** `not bool(dict)` and an empty slice are the same for canonical dicts. */
  lemma EmptySlice(c: Client, d: Dict)
    requires Shaped(c, d)
    ensures d == map[] <==> Canonical.GetSlice(c, d) == NOTHING
  {
    var s := Canonical.GetSlice(c, d);
    if d != map[] {
      var k :| k in d;
      assert k in s.scalars || k in s.lists;
    }
  }

  lemma NothingRenamed(reply: Dict)
    ensures Renaming(reply, reply, reply.Keys)
  {
    forall k ensures !Moved(reply, reply.Keys, k) { }
  }

  lemma KeepStep(reply: Dict, item: Dict, todo: set<string>, key: string)
    requires Renaming(reply, item, todo) && key in todo && !CaaclLongKey(key)
    ensures Renaming(reply, item, todo - {key})
  {
    forall k ensures Moved(reply, todo, k) <==> Moved(reply, todo - {key}, k) { }
    hide CaaclLongKey, ShortKey, Moved;
  }

  lemma RenameStep(reply: Dict, item: Dict, todo: set<string>, key: string)
    requires Renaming(reply, item, todo) && todo <= reply.Keys && key in todo && CaaclLongKey(key)
    ensures key in item && item[key] == reply[key]
    ensures Renaming(reply, (item - {key})[ShortKey(key) := item[key]], todo - {key})
  {
    ShortKeyShape(key);
    assert !CaaclLongKey(ShortKey(key)) by {
      if CaaclLongKey(ShortKey(key)) { LongKeyHasUnderscore(ShortKey(key)); }
    }
    forall k ensures Moved(reply, todo - {key}, k) <==> Moved(reply, todo, k) || k == key { }
    hide CaaclLongKey, ShortKey, Moved, ComesFrom;
    RenameFrom(reply, item, todo, key, ShortKey(key));
    RenameKeys(reply, item, todo, key, ShortKey(key));
  }

  lemma RenameKeys(reply: Dict, item: Dict, todo: set<string>, key: string, to: string)
    requires Renaming(reply, item, todo) && key in todo && CaaclLongKey(key) && key in item
    requires to == ShortKey(key) && !CaaclLongKey(to)
    requires forall k :: Moved(reply, todo - {key}, k) <==> Moved(reply, todo, k) || k == key
    ensures var next := (item - {key})[to := item[key]];
      && (forall k | k in next && CaaclLongKey(k) :: k in reply && k in todo - {key} && next[k] == reply[k])
      && (forall k | k in reply && CaaclLongKey(k) && k in todo - {key} :: k in next)
      && (forall k | k in reply && !CaaclLongKey(k) :: k in next)
      && (forall k :: Moved(reply, todo - {key}, k) ==> ShortKey(k) in next)
  {
    hide ShortKey, Moved, ComesFrom;
    forall k | Moved(reply, todo, k) ensures ShortKey(k) != key {
      ShortIsShort(k);
    }
    hide CaaclLongKey;
  }

  lemma ShortIsShort(k: string)
    ensures !CaaclLongKey(ShortKey(k))
  {
    ShortKeyShape(k);
    if CaaclLongKey(ShortKey(k)) { LongKeyHasUnderscore(ShortKey(k)); }
  }

  lemma RenameFrom(reply: Dict, item: Dict, todo: set<string>, key: string, to: string)
    requires Renaming(reply, item, todo) && key in todo && CaaclLongKey(key) && key in item && key in reply
    requires item[key] == reply[key] && to == ShortKey(key)
    requires forall k :: Moved(reply, todo - {key}, k) <==> Moved(reply, todo, k) || k == key
    ensures var next := (item - {key})[to := item[key]];
      forall s | s in next && !CaaclLongKey(s) :: ComesFrom(reply, todo - {key}, s, next[s])
  {
    var next := (item - {key})[to := item[key]];
    hide CaaclLongKey, ShortKey, Moved;
    forall s | s in next && !CaaclLongKey(s) ensures ComesFrom(reply, todo - {key}, s, next[s]) {
      if s == to {
        assert Moved(reply, todo - {key}, key);
      } else {
        assert ComesFrom(reply, todo, s, item[s]);
        MovedAlso(reply, todo, todo - {key}, key, s, item[s]);
      }
    }
  }

  lemma MovedAlso(reply: Dict, todo: set<string>, rest: set<string>, key: string, s: string, v: Raw)
    requires ComesFrom(reply, todo, s, v) && ShortKey(key) != s
    requires forall k :: Moved(reply, rest, k) <==> Moved(reply, todo, k) || k == key
    ensures ComesFrom(reply, rest, s, v)
  {
    if k :| k in reply && Moved(reply, todo, k) && ShortKey(k) == s && reply[k] == v {
      assert Moved(reply, rest, k);
    } else {
      hide ShortKey, Moved;
    }
  }
}
