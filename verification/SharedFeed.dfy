/** The single-flight reader of the market data file and its "unchanged" shortcut. The file may be
    rewritten between any two awaits of a fetch. */
module SharedFeed {
  import opened Options

  type Prices = map<string, int>

  /** What the outside world is: the signature a stat of file version `v` gives (null when the stat
      fails) and the price rows a read of it yields. */
  datatype World = World(sig: nat -> Option<nat>, parse: nat -> Prices)

  /** Signatures are distinct per file version. */
  ghost predicate DistinctSignatures(w: World) {
    forall u: nat, v: nat :: w.sig(u).Some? && w.sig(u) == w.sig(v) ==> u == v
  }

  /** How far the one fetch has got. */
  datatype Flight = Idle | Started | Statted(signature: Option<nat>) | Parsed(signature: Option<nat>, rows: Prices)

  /** The file's current version and the module variables. */
  datatype Feed = Feed(version: nat, signature: Option<nat>, prices: Option<Prices>, flight: Flight)

  datatype Reply = Nothing | Missing | Unchanged(prices: Prices) | NoRows | Updated(prices: Prices) | Failed

  /** Rewrite is the MT5 side; Call is a caller; the others are the fetch's own continuations. */
  datatype Op = Rewrite | Call | Stat(readable: bool) | Read(busy: bool) | Persist(ok: bool)

  function Step(w: World, f: Feed, op: Op): (Feed, Reply) {
    match op
    case Rewrite => (f.(version := f.version + 1), Nothing)
    case Call => (if f.flight.Idle? then f.(flight := Started) else f, Nothing)
    case Stat(readable) =>
      if !f.flight.Started? then (f, Nothing)
      else if !readable then (f.(flight := Idle), Missing)
      else if w.sig(f.version).Some? && w.sig(f.version) == f.signature && f.prices.Some?
      then (f.(flight := Idle), Unchanged(f.prices.value))
      else (f.(flight := Statted(w.sig(f.version))), Nothing)
    case Read(busy) =>
      if !f.flight.Statted? then (f, Nothing)
      else if busy || w.parse(f.version) == map[] then (f.(flight := Idle), NoRows)
      else (f.(flight := Parsed(f.flight.signature, w.parse(f.version))), Nothing)
    case Persist(ok) =>
      if !f.flight.Parsed? then (f, Nothing)
      else if !ok then (f.(flight := Idle), Failed)
      else (Feed(f.version, f.flight.signature, Some(f.flight.rows), Idle), Updated(f.flight.rows))
  }

  function Run(w: World, f: Feed, ops: seq<Op>): Feed {
    if ops == [] then f else Step(w, Run(w, f, ops[..|ops| - 1]), ops[|ops| - 1]).0
  }

  /** The module variables of the process; `version` stands for the file itself. */
  class FeedProcess {
    const world: World
    var version: nat
    var lastSignature: Option<nat>
    var lastPrices: Option<Prices>
    var inFlight: Flight

    ghost function View(): Feed
      reads this
    {
      Feed(version, lastSignature, lastPrices, inFlight)
    }

    constructor (world: World)
      ensures this.world == world && View() == Feed(0, None, None, Idle)
    {
      this.world := world;
      version, lastSignature, lastPrices, inFlight := 0, None, None, Idle;
    }

    /** fetchAndStorePrices up to its first await: join the running fetch or start one. */
    method Fetch() returns (joined: bool)
      modifies this`inFlight
      ensures View() == Step(world, old(View()), Call).0
      ensures joined <==> !old(inFlight).Idle?
    {
      joined := !inFlight.Idle?;
      if !joined {
        inFlight := Started;
      }
    }

    /** After the access check and the stat. */
    method OnStat(readable: bool) returns (reply: Reply)
      requires inFlight.Started?
      modifies this`inFlight
      ensures (View(), reply) == Step(world, old(View()), Stat(readable))
    {
      if !readable {
        inFlight := Idle;
        return Missing;
      }
      var fileSignature := world.sig(version);
      if fileSignature.Some? && fileSignature == lastSignature && lastPrices.Some? {
        inFlight := Idle;
        return Unchanged(lastPrices.value);
      }
      inFlight := Statted(fileSignature);
      reply := Nothing;
    }

    /** After the read, which gives up on a file that stays busy. */
    method OnRead(busy: bool) returns (reply: Reply)
      requires inFlight.Statted?
      modifies this`inFlight
      ensures (View(), reply) == Step(world, old(View()), Read(busy))
    {
      var rows := if busy then map[] else world.parse(version);
      if rows == map[] {
        inFlight := Idle;
        return NoRows;
      }
      inFlight := Parsed(inFlight.signature, rows);
      reply := Nothing;
    }

    /** After the rows were persisted, or could not be. Only now is the cache replaced. */
    method OnPersisted(ok: bool) returns (reply: Reply)
      requires inFlight.Parsed?
      modifies this`inFlight, this`lastSignature, this`lastPrices
      ensures (View(), reply) == Step(world, old(View()), Persist(ok))
    {
      if !ok {
        inFlight := Idle;
        return Failed;
      }
      lastSignature := inFlight.signature;
      lastPrices := Some(inFlight.rows);
      reply := Updated(inFlight.rows);
      inFlight := Idle;
    }
  }

  // ---------- No stale hit ----------

  /** Between two versions with the same signature, every version that has rows reads like the last:
      what a stat cannot tell apart must not matter. */
  ghost predicate SafeSignatures(w: World) {
    forall u: nat, x: nat, v: nat {:trigger w.sig(u), w.parse(x), w.sig(v)} ::
      u <= x <= v && w.sig(u).Some? && w.sig(u) == w.sig(v) && w.parse(x) != map[] ==> w.parse(x) == w.parse(v)
  }

  /** `signature` was taken at some version and `rows`, if there are any, read at that version or later:
      the read comes after the stat, never before. */
  ghost predicate TakenAt(w: World, version: nat, signature: Option<nat>, rows: Option<Prices>) {
    signature.Some? ==>
      exists u: nat, x: nat {:trigger w.sig(u), w.parse(x)} ::
        u <= x <= version && w.sig(u) == signature && (rows.Some? ==> rows.value == w.parse(x) != map[])
  }

  ghost predicate Fresh(w: World, f: Feed) {
    && TakenAt(w, f.version, f.signature, f.prices)
    && (f.flight.Statted? ==> TakenAt(w, f.version, f.flight.signature, None))
    && (f.flight.Parsed? ==> TakenAt(w, f.version, f.flight.signature, Some(f.flight.rows)))
  }

  lemma TakenAtLater(w: World, version: nat, signature: Option<nat>, rows: Option<Prices>)
    requires TakenAt(w, version, signature, rows)
    ensures TakenAt(w, version + 1, signature, rows)
  {
    if signature.Some? {
      var u: nat, x: nat :| u <= x <= version && w.sig(u) == signature && (rows.Some? ==> rows.value == w.parse(x) != map[]);
      assert u <= x <= version + 1 && w.sig(u) == signature && w.parse(x) == w.parse(x);
    }
  }

  lemma ReadAfterStat(w: World, version: nat, signature: Option<nat>)
    requires TakenAt(w, version, signature, None) && w.parse(version) != map[]
    ensures TakenAt(w, version, signature, Some(w.parse(version)))
  {
    if signature.Some? {
      var u: nat, x: nat :| u <= x <= version && w.sig(u) == signature && w.parse(x) == w.parse(x);
      assert u <= version <= version && w.sig(u) == signature && w.parse(version) == w.parse(version);
    }
  }

  lemma FreshStep(w: World, f: Feed, op: Op)
    requires Fresh(w, f)
    ensures Fresh(w, Step(w, f, op).0)
  {
    match op
    case Rewrite =>
      TakenAtLater(w, f.version, f.signature, f.prices);
      if f.flight.Statted? {
        TakenAtLater(w, f.version, f.flight.signature, None);
      }
      if f.flight.Parsed? {
        TakenAtLater(w, f.version, f.flight.signature, Some(f.flight.rows));
      }
    case Stat(_) => assert w.sig(f.version) == w.sig(f.version) && w.parse(f.version) == w.parse(f.version);
    case Read(_) =>
      if f.flight.Statted? && w.parse(f.version) != map[] {
        ReadAfterStat(w, f.version, f.flight.signature);
      }
    case _ =>
  }

  const START := Feed(0, None, None, Idle)

  lemma {:induction false} RunIsFresh(w: World, ops: seq<Op>)
    ensures Fresh(w, Run(w, START, ops))
  {
    hide Step;
    if ops != [] {
      RunIsFresh(w, ops[..|ops| - 1]);
      FreshStep(w, Run(w, START, ops[..|ops| - 1]), ops[|ops| - 1]);
    }
  }

  /** An "unchanged" answer at the end of these steps would be the parse of the file as it is then. */
  predicate CurrentAfter(w: World, ops: seq<Op>) {
    var f := Run(w, START, ops);
    var reply := Step(w, f, Stat(true)).1;
    reply.Unchanged? ==> reply.prices == w.parse(f.version)
  }

  lemma SafeIsCurrent(w: World, ops: seq<Op>)
    requires SafeSignatures(w)
    ensures CurrentAfter(w, ops)
  {
    RunIsFresh(w, ops);
    var f := Run(w, START, ops);
    if Step(w, f, Stat(true)).1.Unchanged? {
      var u: nat, x: nat :| u <= x <= f.version && w.sig(u) == f.signature && f.prices.value == w.parse(x) != map[];
      assert w.sig(u) == w.sig(f.version);
    }
  }

  function Rewrites(n: nat): seq<Op> {
    if n == 0 then [] else Rewrites(n - 1) + [Rewrite]
  }

  lemma {:induction false} RunAppend(w: World, f: Feed, a: seq<Op>, b: seq<Op>)
    ensures Run(w, f, a + b) == Run(w, Run(w, f, a), b)
  {
    hide Step;
    if b == [] {
      assert a + b == a;
    } else {
      RunAppend(w, f, a, b[..|b| - 1]);
      assert (a + b)[..|a + b| - 1] == a + b[..|b| - 1];
    }
  }

  lemma {:induction false} RunRewrites(w: World, f: Feed, n: nat)
    ensures Run(w, f, Rewrites(n)) == f.(version := f.version + n)
  {
    if n > 0 {
      RunRewrites(w, f, n - 1);
      assert Rewrites(n)[..|Rewrites(n)| - 1] == Rewrites(n - 1);
    }
  }

  lemma RunOne(w: World, f: Feed, a: Op)
    ensures Run(w, f, [a]) == Step(w, f, a).0
  {
    hide Step;
    assert [a][..0] == [];
  }

  lemma RunTwo(w: World, f: Feed, a: Op, b: Op)
    ensures Run(w, f, [a, b]) == Step(w, Step(w, f, a).0, b).0
  {
    hide Step, Run;
    assert [a, b] == [a] + [b];
    RunAppend(w, f, [a], [b]);
    RunOne(w, f, a);
    RunOne(w, Step(w, f, a).0, b);
  }

  /** Stat at version u, read at x, fetch again at v. */
  function Confused(u: nat, x: nat, v: nat): seq<Op>
    requires u <= x <= v
  {
    Rewrites(u) + [Call, Stat(true)] + Rewrites(x - u) + [Read(false), Persist(true)] + Rewrites(v - x) + [Call]
  }

  lemma FirstFetch(w: World, f: Feed)
    requires f.flight.Idle? && f.prices.None?
    ensures Step(w, Step(w, f, Call).0, Stat(true)).0 == f.(flight := Statted(w.sig(f.version)))
  {
  }

  lemma ReadAndPersist(w: World, f: Feed, signature: Option<nat>)
    requires f.flight == Statted(signature) && w.parse(f.version) != map[]
    ensures Step(w, Step(w, f, Read(false)).0, Persist(true)).0 == Feed(f.version, signature, Some(w.parse(f.version)), Idle)
  {
  }

  lemma ConfusedRun(w: World, u: nat, x: nat, v: nat)
    requires u <= x <= v && w.parse(x) != map[]
    ensures Run(w, START, Confused(u, x, v)) == Feed(v, w.sig(u), Some(w.parse(x)), Started)
  {
    hide Run, Rewrites;
    var a, b := Rewrites(u), [Call, Stat(true)];
    var c, d, e := Rewrites(x - u), [Read(false), Persist(true)], Rewrites(v - x);
    RunAppend(w, START, a + b + c + d + e, [Call]);
    RunAppend(w, START, a + b + c + d, e);
    RunAppend(w, START, a + b + c, d);
    RunAppend(w, START, a + b, c);
    RunAppend(w, START, a, b);
    RunRewrites(w, START, u);
    var f1 := START.(version := u);
    RunTwo(w, f1, Call, Stat(true));
    FirstFetch(w, f1);
    var f2 := f1.(flight := Statted(w.sig(u)));
    RunRewrites(w, f2, x - u);
    var f3 := f2.(version := x);
    RunTwo(w, f3, Read(false), Persist(true));
    ReadAndPersist(w, f3, w.sig(u));
    var f4 := Feed(x, w.sig(u), Some(w.parse(x)), Idle);
    RunRewrites(w, f4, v - x);
    RunOne(w, f4.(version := v), Call);
  }

  /** For every interleaving of rewrites with calls, stats, reads and persists, an "unchanged" answer is
      the parse of the file as it is at that moment: this holds if and only if versions that share a
      signature, and those between them, read alike or have no rows. */
  lemma UnchangedIsCurrentIff(w: World)
    ensures (forall ops: seq<Op> :: CurrentAfter(w, ops)) <==> SafeSignatures(w)
  {
    if SafeSignatures(w) {
      forall ops: seq<Op> ensures CurrentAfter(w, ops) {
        SafeIsCurrent(w, ops);
      }
    } else {
      var u: nat, x: nat, v: nat :| u <= x <= v && w.sig(u).Some? && w.sig(u) == w.sig(v)
                                    && w.parse(x) != map[] && w.parse(x) != w.parse(v);
      ConfusedRun(w, u, x, v);
      assert !CurrentAfter(w, Confused(u, x, v));
    }
  }

  /** Signatures that are distinct per version are safe, so then no answer is stale. */
  lemma UnchangedIsCurrent(w: World, ops: seq<Op>)
    requires DistinctSignatures(w)
    ensures CurrentAfter(w, ops)
  {
    assert SafeSignatures(w);
    SafeIsCurrent(w, ops);
  }

  // ---------- One fetch at a time ----------

  predicate Starts(f: Feed, op: Op) {
    op.Call? && f.flight.Idle?
  }

  predicate Ends(w: World, f: Feed, op: Op) {
    !op.Rewrite? && !op.Call? && Step(w, f, op).1 != Nothing
  }

  function Begun(w: World, f: Feed, ops: seq<Op>): nat {
    if ops == [] then 0
    else Begun(w, f, ops[..|ops| - 1]) + if Starts(Run(w, f, ops[..|ops| - 1]), ops[|ops| - 1]) then 1 else 0
  }

  function Ended(w: World, f: Feed, ops: seq<Op>): nat {
    if ops == [] then 0
    else Ended(w, f, ops[..|ops| - 1]) + if Ends(w, Run(w, f, ops[..|ops| - 1]), ops[|ops| - 1]) then 1 else 0
  }

  /** At every moment at most one fetch has started and not yet answered. */
  lemma {:induction false} AtMostOneInFlight(w: World, ops: seq<Op>)
    ensures var f := START;
      Begun(w, f, ops) == Ended(w, f, ops) + if Run(w, f, ops).flight.Idle? then 0 else 1
  {
    if ops != [] {
      AtMostOneInFlight(w, ops[..|ops| - 1]);
    }
  }
}
