/** The delta between wanted and current state: `op` and `compute_changes`. */
module Changes {
  import opened IpaModel

  function Minus(a: Lists, b: Lists): Lists {
    map k | k in a && a[k] - Get(b, k) != {} :: a[k] - Get(b, k)
  }

  function Common(a: Lists, b: Lists): Lists {
    map k | k in a && a[k] * Get(b, k) != {} :: a[k] * Get(b, k)
  }

  function Default(c: Client, k: string): Atom {
    if k in c.defaults then c.defaults[k] else Null
  }

  /** The scalar keys of a delta outside state `absent`: new, changed and, for `exact`,
      deleted ones. */
  function ScalarKeys(c: Client, st: State, want: Scalars, have: Scalars): set<string> {
    (want.Keys - have.Keys)
    + (set k | k in want && k in have && want[k] != have[k])
    + (if st == Exact then have.Keys - (want.Keys + c.defaults.Keys) else {})
  }

  function ScalarChanges(c: Client, st: State, want: Scalars, have: Scalars): Scalars {
    if st == Absent then
      map k | k in want && want[k] == (if k in have then have[k] else Null) :: Default(c, k)
    else
      map k | k in ScalarKeys(c, st, want, have) :: if k in want then want[k] else Default(c, k)
  }

  function ComputeChanges(c: Client, st: State, want: Slice, have: Slice): Delta {
    Delta(ScalarChanges(c, st, want.scalars, have.scalars),
          if st != Absent then Minus(want.lists, have.lists) else map[],
          if st == Exact then Minus(have.lists, want.lists)
          else if st == Absent then Common(want.lists, have.lists) else map[])
  }

  // ---------- as sets of attribute-value pairs ----------

  lemma PairsIn(m: Lists, k: string, v: Atom)
    ensures (k, v) in Pairs(m) <==> v in Get(m, k)
  {
  }

  lemma MinusPairs(a: Lists, b: Lists)
    ensures Pairs(Minus(a, b)) == Pairs(a) - Pairs(b)
  {
    forall p: Pair ensures p in Pairs(Minus(a, b)) <==> p in Pairs(a) - Pairs(b) {
      var (k, v) := p;
      PairsIn(a, k, v);
      PairsIn(b, k, v);
      PairsIn(Minus(a, b), k, v);
    }
  }

  lemma CommonPairs(a: Lists, b: Lists)
    ensures Pairs(Common(a, b)) == Pairs(a) * Pairs(b)
  {
    forall p: Pair ensures p in Pairs(Common(a, b)) <==> p in Pairs(a) * Pairs(b) {
      var (k, v) := p;
      PairsIn(a, k, v);
      PairsIn(b, k, v);
      PairsIn(Common(a, b), k, v);
    }
  }

  lemma EmptyPairs(m: Lists)
    requires m == map[]
    ensures Pairs(m) == {}
  {
  }

  /** The delta's lists, read as pairs. */
  lemma DeltaPairs(c: Client, st: State, want: Slice, have: Slice)
    ensures var d := ComputeChanges(c, st, want, have);
      && Pairs(d.listAdd) == (if st != Absent then Pairs(want.lists) - Pairs(have.lists) else {})
      && Pairs(d.listDel) == (if st == Exact then Pairs(have.lists) - Pairs(want.lists)
                              else if st == Absent then Pairs(want.lists) * Pairs(have.lists) else {})
  {
    MinusPairs(want.lists, have.lists);
    MinusPairs(have.lists, want.lists);
    CommonPairs(want.lists, have.lists);
    EmptyPairs(map[]);
  }

  /** What a state asks of the pairs of an object. */
  ghost predicate ListGoal(st: State, want: set<Pair>, now: set<Pair>) {
    match st
    case Exact => now == want
    case Absent => now !! want
    case _ => want <= now
  }

  /** The delta is exact: it adds only what is missing and removes only what is there, never
      both for one pair, and carrying it out reaches the goal. It is minimal: every pair of
      sets that reaches the goal, added and removed in the server's order, contains it. */
  lemma DeltaExactAndMinimal(c: Client, st: State, want: Slice, have: Slice, add: set<Pair>, del: set<Pair>)
    ensures var d := ComputeChanges(c, st, want, have);
      var cur := Pairs(have.lists);
      && Pairs(d.listAdd) !! cur && Pairs(d.listDel) <= cur && Pairs(d.listAdd) !! Pairs(d.listDel)
      && ListGoal(st, Pairs(want.lists), cur + Pairs(d.listAdd) - Pairs(d.listDel))
      && (ListGoal(st, Pairs(want.lists), cur + add - del) ==>
            Pairs(d.listAdd) <= add && Pairs(d.listDel) <= del)
  {
    DeltaPairs(c, st, want, have);
  }

  /** Every entry of a delta is a nonempty list, so `.get(attr, None)` is None exactly when
      there is nothing to do for `attr`. */
  lemma DeltaNonempty(c: Client, st: State, want: Slice, have: Slice)
    ensures var d := ComputeChanges(c, st, want, have);
      && (forall k | k in d.listAdd :: d.listAdd[k] != {})
      && (forall k | k in d.listDel :: d.listDel[k] != {})
      && d.listAdd.Keys <= want.lists.Keys
      && d.listDel.Keys <= want.lists.Keys + have.lists.Keys
  {
  }
}
