/** Docker networks (lib/modules/docker_network.py): when a network has other settings than
    asked for, and what one run of the module leaves behind. */
module DockerNetwork {
  import opened Strings

  /** A pool is the order-keeping view of a dictionary of the daemon's reply. */
  type Pool = seq<(string, string)>
  datatype Ipam = Ipam(driver: string, pools: seq<Pool>)
  datatype Config = Config(driver: string, options: map<string, string>, ipam: Option<Ipam>, ipv6: bool)

  /** A network; `members` are the names of the containers on it. */
  datatype Net = Net(config: Config, members: set<string>)

  /** The module's parameters; an empty string or map is one that was not given. */
  datatype Params = Params(connected: seq<string>, driver: string, driverOptions: map<string, string>,
                           ipamDriver: string, ipamOptions: map<string, string>, ipv6: bool,
                           force: bool, appends: bool)

  /** What a reference to a container, a name or an id, stands for: the container's name. */
  type World = map<string, string>

  predicate NamesStandForThemselves(world: World) {
    forall r | r in world :: world[r] in world && world[world[r]] == world[r]
  }

  // ---------- has_different_config ----------

  /** The first key of a pool that reads `key` in lower case, or the pool's length. */
  function FirstKey(pool: Pool, key: string): (i: nat)
    ensures i <= |pool|
    ensures i < |pool| ==> Lower(pool[i].0) == key
    ensures forall j | 0 <= j < i :: Lower(pool[j].0) != key
  {
    if pool == [] then 0
    else if Lower(pool[0].0) == key then 0
    else 1 + FirstKey(pool[1..], key)
  }

  predicate DriverOptionDiffers(options: map<string, string>, key: string, value: string) {
    key !in options || options[key] != value
  }

  predicate PoolOptionDiffers(pool: Pool, key: string, value: string) {
    var i := FirstKey(pool, key);
    i == |pool| || pool[i].0 == "" || pool[i].1 != value
  }

  predicate DriverOptionsDiffer(p: Params, c: Config) {
    p.driverOptions != map[] &&
      (c.options == map[] ||
       exists k | k in p.driverOptions :: DriverOptionDiffers(c.options, k, p.driverOptions[k]))
  }

  predicate PoolOptionsDiffer(p: Params, c: Config) {
    p.ipamOptions != map[] &&
      (c.ipam.None? || c.ipam.value.pools == [] ||
       exists k | k in p.ipamOptions :: PoolOptionDiffers(c.ipam.value.pools[0], k, p.ipamOptions[k]))
  }

  predicate Different(p: Params, c: Config) {
    || (p.driver != "" && p.driver != c.driver)
    || DriverOptionsDiffer(p, c)
    || (p.ipamDriver != "" && (c.ipam.None? || c.ipam.value.driver != p.ipamDriver))
    || PoolOptionsDiffer(p, c)
    || (p.ipv6 && !c.ipv6)
  }

  /** The name under which an option is reported. */
  function Named(group: string, key: string): string { group + "." + key }

  function DriverOptionNames(p: Params, c: Config): set<string> {
    if p.driverOptions == map[] then {}
    else if c.options == map[] then {"driver_options"}
    else set k | k in p.driverOptions && DriverOptionDiffers(c.options, k, p.driverOptions[k]) :: Named("driver_options", k)
  }

  function PoolOptionNames(p: Params, c: Config): set<string> {
    if p.ipamOptions == map[] then {}
    else if c.ipam.None? || c.ipam.value.pools == [] then {"ipam_options"}
    else set k | k in p.ipamOptions && PoolOptionDiffers(c.ipam.value.pools[0], k, p.ipamOptions[k]) :: Named("ipam_options", k)
  }

  /** Every setting that differs, by name. */
  function Differences(p: Params, c: Config): set<string> {
    (if p.driver != "" && p.driver != c.driver then {"driver"} else {})
    + DriverOptionNames(p, c)
    + (if p.ipamDriver != "" && (c.ipam.None? || c.ipam.value.driver != p.ipamDriver) then {"ipam_driver"} else {})
    + PoolOptionNames(p, c)
    + (if p.ipv6 && !c.ipv6 then {"ipv6"} else {})
  }

  /** A network is different exactly if some setting is named. */
  lemma DifferentIffNamed(p: Params, c: Config)
    ensures Different(p, c) <==> Differences(p, c) != {}
  {
    OptionsNamed(p, c);
    hide DriverOptionsDiffer, PoolOptionsDiffer, DriverOptionNames, PoolOptionNames;
    assert "driver" in Differences(p, c) || !(p.driver != "" && p.driver != c.driver);
    assert "ipam_driver" in Differences(p, c)
      || !(p.ipamDriver != "" && (c.ipam.None? || c.ipam.value.driver != p.ipamDriver));
    assert "ipv6" in Differences(p, c) || !(p.ipv6 && !c.ipv6);
    assert DriverOptionNames(p, c) <= Differences(p, c) && PoolOptionNames(p, c) <= Differences(p, c);
  }

  lemma OptionsNamed(p: Params, c: Config)
    ensures DriverOptionsDiffer(p, c) <==> DriverOptionNames(p, c) != {}
    ensures PoolOptionsDiffer(p, c) <==> PoolOptionNames(p, c) != {}
  {
    hide DriverOptionDiffers, PoolOptionDiffers, Named;
    if p.driverOptions != map[] && c.options != map[] {
      if k :| k in p.driverOptions && DriverOptionDiffers(c.options, k, p.driverOptions[k]) {
        assert Named("driver_options", k) in DriverOptionNames(p, c);
      }
    } else if p.driverOptions != map[] {
      assert "driver_options" in DriverOptionNames(p, c);
    }
    if p.ipamOptions != map[] && c.ipam.Some? && c.ipam.value.pools != [] {
      if k :| k in p.ipamOptions && PoolOptionDiffers(c.ipam.value.pools[0], k, p.ipamOptions[k]) {
        assert Named("ipam_options", k) in PoolOptionNames(p, c);
      }
    } else if p.ipamOptions != map[] {
      assert "ipam_options" in PoolOptionNames(p, c);
    }
  }

  /** Every option name is one the pool constructor takes; `names` maps it to the key the
      daemon reports it under. */
  predicate Buildable(names: map<string, string>, p: Params) { p.ipamOptions.Keys <= names.Keys }

  /** The daemon reports the settings a network was created with: the pool's keys are told
      apart by their lower-case form. */
  ghost predicate Stores(names: map<string, string>, p: Params, c: Config) {
    && Buildable(names, p)
    && c.driver == p.driver && c.ipv6 == p.ipv6
    && (forall k | k in p.driverOptions :: k in c.options && c.options[k] == p.driverOptions[k])
    && c.ipam.Some? && (p.ipamDriver != "" ==> c.ipam.value.driver == p.ipamDriver)
    && (p.ipamOptions != map[] ==> c.ipam.value.pools != [])
    && (c.ipam.value.pools != [] ==>
          var pool := c.ipam.value.pools[0];
          && (forall k | k in p.ipamOptions :: (names[k], p.ipamOptions[k]) in pool)
          && (forall i, j | 0 <= i < j < |pool| :: Lower(pool[i].0) != Lower(pool[j].0)))
  }

  /** A pool option can be found again: in lower case its stored key is the option's name. */
  predicate Findable(names: map<string, string>, p: Params) {
    forall k | k in p.ipamOptions && k in names :: k != "" && Lower(names[k]) == k
  }

  lemma StoredOptionDiffersIff(pool: Pool, key: string, stored: string, value: string)
    requires (stored, value) in pool
    requires forall i, j | 0 <= i < j < |pool| :: Lower(pool[i].0) != Lower(pool[j].0)
    ensures Lower(stored) == key && key != "" ==> !PoolOptionDiffers(pool, key, value)
  {
    var j :| 0 <= j < |pool| && pool[j] == (stored, value);
    if Lower(stored) == key && key != "" {
      var i := FirstKey(pool, key);
      assert i == j;
      assert Lower("") == "";
    }
  }

  /** A network just created with some settings counts as having them if every pool option
      can be found again. */
  lemma CreatedIsNotDifferent(names: map<string, string>, p: Params, c: Config)
    requires Stores(names, p, c) && Findable(names, p)
    ensures !Different(p, c)
  {
    if p.ipamOptions != map[] {
      var pool := c.ipam.value.pools[0];
      forall k | k in p.ipamOptions ensures !PoolOptionDiffers(pool, k, p.ipamOptions[k]) {
        StoredOptionDiffersIff(pool, k, names[k], p.ipamOptions[k]);
      }
    }
    if p.driverOptions != map[] {
      var k :| k in p.driverOptions;
      assert k in c.options;
    }
  }

  /** ... and the converse: an option that no stored key reads as makes it different. */
  lemma LostOptionIsDifferent(p: Params, c: Config, k: string)
    requires k in p.ipamOptions && c.ipam.Some? && c.ipam.value.pools != []
    requires k == "" || forall e | e in c.ipam.value.pools[0] :: Lower(e.0) != k
    ensures Different(p, c)
  {
    var pool := c.ipam.value.pools[0];
    var i := FirstKey(pool, k);
    if i < |pool| {
      assert pool[i] in pool;
      LowerEmpty(pool[i].0);
    }
    assert PoolOptionDiffers(pool, k, p.ipamOptions[k]);
  }

  lemma LowerEmpty(s: string)
    ensures Lower(s) == "" <==> s == ""
  {
  }

  // ---------- which settings count ----------

  /** The first entry whose key reads as the option has a key at all and the value asked for. */
  predicate Holds(pool: Pool, key: string, value: string) {
    exists i | 0 <= i < |pool| ::
      && Lower(pool[i].0) == key && pool[i].0 != "" && pool[i].1 == value
      && forall j | 0 <= j < i :: Lower(pool[j].0) != key
  }

  /** The network has every setting that was given; those not given do not matter, and IPv6
      may be on although it was not asked for. */
  predicate HasSettings(p: Params, c: Config) {
    && (p.driver != "" ==> c.driver == p.driver)
    && (p.ipamDriver != "" ==> c.ipam.Some? && c.ipam.value.driver == p.ipamDriver)
    && (p.ipv6 ==> c.ipv6)
    && (forall k | k in p.driverOptions :: k in c.options && c.options[k] == p.driverOptions[k])
    && (forall k | k in p.ipamOptions ::
          c.ipam.Some? && c.ipam.value.pools != [] && Holds(c.ipam.value.pools[0], k, p.ipamOptions[k]))
  }

  /** A network counts as different exactly if it lacks a setting or has another value for it. */
  lemma DifferentIffLacking(p: Params, c: Config)
    ensures Different(p, c) <==> !HasSettings(p, c)
  {
    hide PoolOptionDiffers, Holds;
    forall pool, key, value ensures PoolOptionDiffers(pool, key, value) <==> !Holds(pool, key, value) {
      OptionDiffersIff(pool, key, value);
    }
    if p.driverOptions != map[] {
      var k :| k in p.driverOptions;
      assert c.options == map[] ==> k !in c.options;
    }
    if p.ipamOptions != map[] {
      var k :| k in p.ipamOptions;
    }
  }

  lemma OptionDiffersIff(pool: Pool, key: string, value: string)
    ensures PoolOptionDiffers(pool, key, value) <==> !Holds(pool, key, value)
  {
    var i := FirstKey(pool, key);
    if Holds(pool, key, value) {
      var j :| 0 <= j < |pool| && Lower(pool[j].0) == key && pool[j].0 != "" && pool[j].1 == value
        && forall l | 0 <= l < j :: Lower(pool[l].0) != key;
      assert i == j;
    }
  }

  /** The names given are those of the settings that the network lacks; where it has no options
      or no pool at all, one name stands for the whole group. */
  lemma DifferencesAre(p: Params, c: Config)
    ensures "driver" in Differences(p, c) <==> p.driver != "" && c.driver != p.driver
    ensures "ipam_driver" in Differences(p, c) <==>
      p.ipamDriver != "" && !(c.ipam.Some? && c.ipam.value.driver == p.ipamDriver)
    ensures "ipv6" in Differences(p, c) <==> p.ipv6 && !c.ipv6
    ensures "driver_options" in Differences(p, c) <==> p.driverOptions != map[] && c.options == map[]
    ensures "ipam_options" in Differences(p, c) <==> p.ipamOptions != map[] && (c.ipam.None? || c.ipam.value.pools == [])
    ensures forall k :: "driver_options." + k in Differences(p, c) <==>
      k in p.driverOptions && c.options != map[] && !(k in c.options && c.options[k] == p.driverOptions[k])
    ensures forall k :: "ipam_options." + k in Differences(p, c) <==>
      k in p.ipamOptions && c.ipam.Some? && c.ipam.value.pools != [] && !Holds(c.ipam.value.pools[0], k, p.ipamOptions[k])
  {
    hide DriverOptionNames, PoolOptionNames, Holds;
    DriverNamesAre(p, c);
    PoolNamesAre(p, c);
    forall k ensures "driver_options." + k in Differences(p, c) <==> "driver_options." + k in DriverOptionNames(p, c) {
      Grouped(p, c, "driver_options." + k);
    }
    forall k ensures "ipam_options." + k in Differences(p, c) <==> "ipam_options." + k in PoolOptionNames(p, c) {
      Grouped(p, c, "ipam_options." + k);
    }
    Grouped(p, c, "driver_options");
    Grouped(p, c, "ipam_options");
    assert |"ipv6"| < |"ipam_options"| && "ipam_driver" != "ipam_options";
  }

  lemma NamedApart(group: string, k: string, l: string)
    ensures Named(group, k) == group + "." + k && |Named(group, k)| > |group|
    ensures Named(group, k) == Named(group, l) ==> k == l
  {
    assert Named(group, k)[|group| + 1..] == k && Named(group, l)[|group| + 1..] == l;
  }

  lemma DriverNamesAre(p: Params, c: Config)
    ensures var names := DriverOptionNames(p, c);
      && ("driver_options" in names <==> p.driverOptions != map[] && c.options == map[])
      && (forall k :: "driver_options." + k in names <==>
            k in p.driverOptions && c.options != map[] && !(k in c.options && c.options[k] == p.driverOptions[k]))
      && (forall x | x in names :: x[0] == 'd' && (x == "driver_options" || |x| > |"driver_options"|))
  {
    forall k, l ensures ("driver_options." + k) == Named("driver_options", k) && |Named("driver_options", k)| > |"driver_options"|
      ensures Named("driver_options", k) == Named("driver_options", l) ==> k == l
    {
      NamedApart("driver_options", k, l);
    }
  }

  lemma PoolNamesAre(p: Params, c: Config)
    ensures var names := PoolOptionNames(p, c);
      && ("ipam_options" in names <==> p.ipamOptions != map[] && (c.ipam.None? || c.ipam.value.pools == []))
      && (forall k :: "ipam_options." + k in names <==>
            k in p.ipamOptions && c.ipam.Some? && c.ipam.value.pools != [] && !Holds(c.ipam.value.pools[0], k, p.ipamOptions[k]))
      && (forall x | x in names :: x[0] == 'i' && (x == "ipam_options" || |x| > |"ipam_options"|))
  {
    hide PoolOptionDiffers, Holds;
    forall k, l ensures ("ipam_options." + k) == Named("ipam_options", k) && |Named("ipam_options", k)| > |"ipam_options"|
      ensures Named("ipam_options", k) == Named("ipam_options", l) ==> k == l
    {
      NamedApart("ipam_options", k, l);
    }
    forall pool, key, value ensures PoolOptionDiffers(pool, key, value) <==> !Holds(pool, key, value) {
      OptionDiffersIff(pool, key, value);
    }
  }

  lemma Grouped(p: Params, c: Config, x: string)
    requires |x| > 11
    requires forall y | y in DriverOptionNames(p, c) :: y[0] == 'd'
    requires forall y | y in PoolOptionNames(p, c) :: y[0] == 'i'
    ensures x[0] == 'd' ==> (x in Differences(p, c) <==> x in DriverOptionNames(p, c))
    ensures x[0] == 'i' ==> (x in Differences(p, c) <==> x in PoolOptionNames(p, c))
  {
  }
}
