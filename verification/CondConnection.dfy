/**
 * The condition cache as the server keeps it (configfile-glue.c, configfile.c): the entries
 * of a connection, updated in place, proved against the functions of CondCache.
 */
module CondConnection {
  import opened Options
  import opened CondMeaning
  import opened CondCache

  lemma NextComesFirst(t: seq<Config>, j: nat, k: nat)
    requires WellFormed(t) && k < |t| && Before(t, j, k)
    ensures j < k && t[j].next.Some? && t[j].next.value <= k && t[k].parent == t[j].parent
  {
    BeforeFacts(t, j, k);
    if t[j].next != Some(k) { BeforeFacts(t, t[j].next.value, k); }
  }

  lemma {:induction false} LaterTotal(t: seq<Config>, i: nat, x: nat, k: nat)
    requires WellFormed(t) && x < k < |t| && Before(t, i, x) && Before(t, i, k)
    ensures Before(t, x, k)
    decreases k
  {
    var q := t[k].prev.value;
    NextComesFirst(t, i, x);
    if q > x {
      LaterTotal(t, i, x, q);
    } else if q < x && q != i {
      LaterTotal(t, i, q, x);
      NextComesFirst(t, q, x);
    }
  }

  lemma NotBeforeItself(t: seq<Config>, i: nat)
    requires WellFormed(t) && i < |t|
    ensures !Before(t, i, i)
  {
    if Before(t, i, i) { BeforeFacts(t, i, i); }
  }

  /** The condition cache of one connection. */
  class Connection {
    const configs: seq<Config>
    const test: nat -> bool
    const cache: array<Cond>
    var valid: set<nat>

    ghost function Now(): World
      reads this
    {
      World(configs, valid, test)
    }

    ghost predicate Valid() { WellFormed(configs) && cache.Length == |configs| }

    constructor (configs: seq<Config>, test: nat -> bool)
      requires WellFormed(configs)
      ensures Valid() && this.configs == configs && this.test == test && fresh(cache)
      ensures cache[..] == After(configs, test, []).cache && Now() == WorldAfter(configs, test, [])
    {
      this.configs, this.test, valid := configs, test, {};
      cache := new Cond[|configs|](_ => UNSET);
      new;
      assert cache[..] == Blank(configs);
    }

    /** config_check_cond_cached. */
    method CheckCached(i: nat) returns (r: Cond)
      requires Valid() && i < |configs|
      modifies cache
      ensures cache[..] == Cached(Now(), old(cache[..]), i) && r == cache[i]
      decreases i, 2
    {
      if cache[i] == UNSET {
        r := CheckNoCache(i);
        StoreResult(i, r);
      }
      r := cache[i];
    }

    /** Stores a result; a block that applies marks the rest of its else-chain. */
    method StoreResult(i: nat, r: Cond)
      requires Valid() && i < |configs|
      modifies cache
      ensures cache[..] == Store(configs, old(cache[..]), i, r)
    {
      cache[i] := r;
      if r == TRUE { MarkRest(i); }
      NotBeforeItself(configs, i);
    }

    /** The blocks behind i on its else-chain do not apply. */
    method MarkRest(i: nat)
      requires Valid() && i < |configs|
      modifies cache
      ensures forall k :: 0 <= k < |configs| ==> cache[k] == if Before(configs, i, k) then FALSE else old(cache[k])
    {
      var c := configs[i].next;
      forall k | 0 <= k < |configs| && Before(configs, i, k) ensures c.Some? && c.value <= k {
        NextComesFirst(configs, i, k);
      }
      while c.Some?
        invariant c.Some? ==> i < c.value < |configs| && Before(configs, i, c.value)
        invariant forall k :: 0 <= k < |configs| ==>
          cache[k] == if Before(configs, i, k) && (c.Some? ==> k < c.value) then FALSE else old(cache[k])
        decreases if c.Some? then |configs| - c.value else 0
      {
        var x := c.value;
        cache[x] := FALSE;
        c := configs[x].next;
        forall k | 0 <= k < |configs| && Before(configs, i, k) && x < k ensures c.Some? && c.value <= k {
          LaterTotal(configs, i, x, k);
          NextComesFirst(configs, x, k);
        }
      }
    }

    /** config_check_cond_nocache. */
    method CheckNoCache(i: nat) returns (r: Cond)
      requires Valid() && i < |configs|
      modifies cache
      ensures Result(r, cache[..]) == Evaluated(Now(), old(cache[..]), i)
      decreases i, 1
    {
      var parent := configs[i].parent;
      if parent != 0 {
        r := CheckCached(parent);
        if r != TRUE {
          return;
        }
      }
      if configs[i].prev.Some? {
        var _ := CheckCached(configs[i].prev.value);
        if cache[i] == FALSE {
          return FALSE;
        }
      }
      r := Compared(World(configs, valid, test), i);
    }

    /** config_patch_connection: an input becomes known, and the blocks that test it are asked. */
    method Patch(comp: nat) returns (answers: map<nat, Cond>)
      requires Valid()
      modifies this`valid, cache
      ensures Now() == Learnt(old(Now()), Learn(comp))
      ensures CondCache.Round(answers, cache[..]) == Perform(Now(), old(cache[..]), Learn(comp))
    {
      valid := valid + {comp};
      answers := map[];
      var i := 1;
      while i < |configs|
        invariant 1 <= i && (configs != [] ==> i <= |configs|) && valid == old(valid) + {comp}
        invariant i <= |configs| ==> CondCache.Round(answers, cache[..]) == Patched(Now(), old(cache[..]), comp, i)
        invariant configs == [] ==> answers == map[] && cache[..] == old(cache[..])
        decreases |configs| - i
      {
        if configs[i].comp == comp {
          var r := CheckCached(i);
          answers := answers[i := r];
        }
        i := i + 1;
      }
    }

    /** config_cond_cache_reset. */
    method Reset()
      requires Valid()
      modifies this`valid, cache
      ensures cache[..] == After(configs, test, []).cache && Now() == WorldAfter(configs, test, [])
    {
      for k := 0 to cache.Length
        invariant forall m :: 0 <= m < k ==> cache[m] == UNSET
      {
        cache[k] := UNSET;
      }
      valid := {};
      assert cache[..] == Blank(configs);
    }
  }

  /** With fixed inputs: for whatever is known, and whatever is asked in whatever order, each
      answer is the uncached meaning. */
  method QueryAll(configs: seq<Config>, test: nat -> bool, known: set<nat>, queries: seq<nat>)
    returns (answers: seq<Cond>)
    requires WellFormed(configs) && forall k :: 0 <= k < |queries| ==> queries[k] < |configs|
    ensures |answers| == |queries|
    ensures forall k :: 0 <= k < |queries| ==> answers[k] == Meaning(World(configs, known, test), queries[k])
  {
    var con := new Connection(configs, test);
    con.valid := known;
    ghost var w := World(configs, known, test);
    answers := [];
    for k := 0 to |queries|
      invariant fresh(con) && fresh(con.cache) && Fixed(con, w) && |answers| == k
      invariant forall m :: 0 <= m < k ==> answers[m] == Meaning(w, queries[m])
    {
      var r := QueryOne(con, w, queries[k]);
      answers := answers + [r];
    }
  }

  ghost predicate Fixed(con: Connection, w: World)
    reads con, con.cache
  {
    con.Valid() && con.Now() == w && Consistent(w, con.cache[..], Settled(w.t, true))
  }

  method QueryOne(con: Connection, ghost w: World, i: nat) returns (r: Cond)
    requires Fixed(con, w) && i < |w.t|
    modifies con.cache
    ensures Fixed(con, w) && r == Meaning(w, i)
  {
    QueryIsRight(w, con.cache[..], i, Settled(w.t, true));
    r := con.CheckCached(i);
  }

  /** Where a run stands after its first k operations. */
  ghost predicate StandsAt(con: Connection, configs: seq<Config>, test: nat -> bool, ops: seq<Op>, k: nat)
    requires WellFormed(configs) && k <= |ops|
    reads con, con.cache
  {
    && con.Valid() && con.Now() == WorldAfter(configs, test, ops[..k])
    && con.cache[..] == After(configs, test, ops[..k]).cache
  }

  /** The life of a connection: what it answers is what the run of its operations answers. */
  method Serve(configs: seq<Config>, test: nat -> bool, ops: seq<Op>) returns (rounds: seq<map<nat, Cond>>)
    requires WellFormed(configs)
    ensures |rounds| == |ops|
    ensures forall k :: 0 <= k < |ops| ==> rounds[k] == After(configs, test, ops[..k + 1]).answers
  {
    var con := new Connection(configs, test);
    rounds := [];
    assert ops[..0] == [];
    for k := 0 to |ops|
      invariant fresh(con) && fresh(con.cache) && StandsAt(con, configs, test, ops, k) && |rounds| == k
      invariant forall m :: 0 <= m < k ==> rounds[m] == After(configs, test, ops[..m + 1]).answers
    {
      var answers := DoNext(con, configs, test, ops, k);
      rounds := rounds + [answers];
    }
  }

  method DoNext(con: Connection, configs: seq<Config>, ghost test: nat -> bool, ops: seq<Op>, k: nat)
    returns (answers: map<nat, Cond>)
    requires WellFormed(configs) && k < |ops| && StandsAt(con, configs, test, ops, k)
    modifies con`valid, con.cache
    ensures StandsAt(con, configs, test, ops, k + 1) && answers == After(configs, test, ops[..k + 1]).answers
  {
    assert ops[..k + 1][..k] == ops[..k];
    OneMore(configs, test, ops[..k + 1]);
    answers := Do(con, ops[k]);
  }

  method Do(con: Connection, op: Op) returns (answers: map<nat, Cond>)
    requires con.Valid()
    modifies con`valid, con.cache
    ensures con.Now() == Learnt(old(con.Now()), op)
    ensures CondCache.Round(answers, con.cache[..]) == Perform(con.Now(), old(con.cache[..]), op)
  {
    answers := map[];
    match op
    case Learn(comp) => answers := con.Patch(comp);
    case Ask(i) =>
      if i < |con.configs| {
        var r := con.CheckCached(i);
        answers := map[i := r];
      }
  }
}
