/**
 * The rest of populating a freshly cast maze (private helpers of
 * DungeonImpl's random constructor): the search for a start and an end,
 * the extra Otyugh for the end cave, and the Yugoloth, the thief and the
 * pit on the first free caves in row-major order.
 */
module Population {
  import opened Wrappers
  import opened Nodes
  import opened Otyughs
  import opened Topology
  import opened Randomness
  import opened GridOps
  import Search
  import Engine
  import Text
  import opened Draws
  import Grid

  const NoStartEndError: string := "Cannot find any start and end nodes with shortest path length of 5"
  const MaxPatience: nat := 1000

  // ------------------------------------------------------------------ start and end

  /** A pair the start and end search accepts: two different nodes at distance 5 or more, the end a cave, no Otyugh at the start. */
  ghost predicate Acceptable(g: array2<Node>, s: Pos, e: Pos)
    reads g
    requires InGrid(g, s) && InGrid(g, e)
  {
    s != e && Engine.FarApart(TopologyOf(g), s, e) && g[e.row, e.col].kind.Cave? && !HasOtyugh(g[s.row, s.col])
  }

  /** What one attempt of the start and end search comes to. */
  datatype Attempt = Skipped | Accepted(start: Pos, end: Pos) | Failed(error: Error)

  /** random.nextInt(n - 1) + 1 for a raw draw v: a node number in 1 .. n - 1, never n. */
  function Drawn(v: nat, n: nat): (a: nat)
    requires n >= 2
    ensures 1 <= a < n
  {
    v % (n - 1) + 1
  }

  /**
   * The k-th attempt of the search whose first draw is entry `at` of the
   * stream: entry at + 2k names the start and entry at + 2k + 1 the end.
   * Equal names are skipped; a name no node has fails the lookup; a pair
   * that is not acceptable is skipped.
   */
  ghost function Outcome(g: array2<Node>, draws: nat -> nat, at: nat, k: nat): (t: Attempt)
    reads g
    requires LinksInGrid(g) && g.Length0 * g.Length1 >= 2
    ensures t.Accepted? ==> InGrid(g, t.start) && InGrid(g, t.end) && Acceptable(g, t.start, t.end)
    ensures t.Accepted? ==> g[t.start.row, t.start.col].name != g[t.end.row, t.end.col].name
    ensures t.Failed? ==> t.error.IllegalArgument?
  {
    var n := g.Length0 * g.Length1;
    var startName := Text.NatToString(Drawn(draws(at + 2 * k), n));
    var endName := Text.NatToString(Drawn(draws(at + 2 * k + 1), n));
    if startName == endName then Skipped
    else if Engine.FirstNamed(g, startName).None? then
      Failed(IllegalArgument(Engine.NotFoundPrefix + startName + Engine.NotFoundSuffix))
    else if Engine.FirstNamed(g, endName).None? then
      Failed(IllegalArgument(Engine.NotFoundPrefix + endName + Engine.NotFoundSuffix))
    else
      var s, e := Engine.FirstNamed(g, startName).value, Engine.FirstNamed(g, endName).value;
      if Acceptable(g, s, e) then Accepted(s, e) else Skipped
  }

  /** The outcomes of all 1000 attempts of the search whose first draw is entry `at` of the stream, in order. */
  ghost function Attempts(g: array2<Node>, draws: nat -> nat, at: nat): (s: seq<Attempt>)
    reads g
    requires LinksInGrid(g) && g.Length0 * g.Length1 >= 2
    ensures |s| == MaxPatience
    ensures forall k :: 0 <= k < MaxPatience ==> s[k] == Outcome(g, draws, at, k)
  {
    seq(MaxPatience, (k: int) reads g requires 0 <= k && LinksInGrid(g) && g.Length0 * g.Length1 >= 2 =>
      Outcome(g, draws, at, k))
  }

  /** The search from attempt i on: the first attempt that is not skipped decides; when all are skipped the search gives up. */
  function Settle(outs: seq<Attempt>, i: nat): Result<(Pos, Pos)>
    requires i <= |outs|
    decreases |outs| - i
  {
    if i == |outs| then Err(IllegalArgument(NoStartEndError))
    else
      match outs[i]
      case Skipped => Settle(outs, i + 1)
      case Accepted(s, e) => Ok((s, e))
      case Failed(err) => Err(err)
  }

  /**
   * One pass of the loop of generateRandomStartEndNode, the k-th attempt:
   * two draws name the start and the end, the nodes are looked up by name
   * (a missing one fails), and the pair is tested.
   */
  method TryPair(g: array2<Node>, rng: Rng, ghost at: nat, ghost k: nat) returns (t: Attempt)
    requires LinksInGrid(g) && g.Length0 * g.Length1 >= 2 && rng.used == at + 2 * k
    modifies rng
    ensures t == Outcome(g, rng.draws, at, k)
    ensures k < MaxPatience ==> t == Attempts(g, rng.draws, at)[k]
    ensures rng.used == old(rng.used) + 2
  {
    var n := g.Length0 * g.Length1;
    var a := rng.NextInt(n - 1);
    var b := rng.NextInt(n - 1);
    var startName, endName := Text.NatToString(a + 1), Text.NatToString(b + 1);
    assert startName == Text.NatToString(Drawn(rng.draws(at + 2 * k), n));
    assert endName == Text.NatToString(Drawn(rng.draws(at + 2 * k + 1), n));
    if startName == endName {
      return Skipped;
    }
    var s := Engine.FindByName(g, startName);
    if s.None? {
      return Failed(IllegalArgument(Engine.NotFoundPrefix + startName + Engine.NotFoundSuffix));
    }
    var e := Engine.FindByName(g, endName);
    if e.None? {
      return Failed(IllegalArgument(Engine.NotFoundPrefix + endName + Engine.NotFoundSuffix));
    }
    var sp, ep := s.value, e.value;
    assert sp != ep by {
      assert g[sp.row, sp.col].name == startName && g[ep.row, ep.col].name == endName;
    }
    if HasOtyugh(g[sp.row, sp.col]) {
      return Skipped;
    }
    var distance := Search.ShortestPathDistance(g, sp, ep);
    Engine.DistanceCheck(TopologyOf(g), sp, ep, distance);
    if distance >= Engine.MinDistance && g[ep.row, ep.col].kind.Cave? {
      return Accepted(sp, ep);
    }
    return Skipped;
  }

  /**
   * generateRandomStartEndNode: up to 1000 attempts, each drawing two
   * names among 1 .. rows * cols - 1 and looking the nodes up by name. An
   * attempt with equal names, or with an Otyugh at the start, is spent
   * without further test; the first acceptable pair is the answer.
   */
  method ChooseStartEnd(g: array2<Node>, rng: Rng) returns (r: Result<(Pos, Pos)>)
    requires LinksInGrid(g)
    modifies rng
    ensures r.Ok? ==> InGrid(g, r.value.0) && InGrid(g, r.value.1) && Acceptable(g, r.value.0, r.value.1)
    ensures r.Ok? ==> g[r.value.0.row, r.value.0.col].name != g[r.value.1.row, r.value.1.col].name
    ensures r.Err? ==> r.error.IllegalArgument?
    ensures g.Length0 * g.Length1 < 2 ==> r == Err(IllegalArgument(BoundError))
    ensures g.Length0 * g.Length1 >= 2 ==> r == Settle(Attempts(g, rng.draws, old(rng.used)), 0)
    ensures rng.used <= old(rng.used) + 2 * MaxPatience
  {
    var n := g.Length0 * g.Length1;
    if n < 2 {
      return Err(IllegalArgument(BoundError));
    }
    ghost var at := rng.used;
    ghost var outs := Attempts(g, rng.draws, at);
    SettledFacts(g, rng.draws, at);
    var i := 0;
    while i < MaxPatience
      invariant i <= MaxPatience
      invariant rng.used == at + 2 * i
      invariant Settle(outs, i) == Settle(outs, 0)
      decreases MaxPatience - i
    {
      var t := TryPair(g, rng, at, i);
      if t.Accepted? {
        return Ok((t.start, t.end));
      } else if t.Failed? {
        return Err(t.error);
      }
      i := i + 1;
    }
    return Err(IllegalArgument(NoStartEndError));
  }

  /** The names an accepted attempt looked up: the nodes numbered by its two draws, both in 1 .. rows * cols - 1. */
  lemma AcceptedNames(g: array2<Node>, draws: nat -> nat, at: nat, k: nat)
    requires LinksInGrid(g) && g.Length0 * g.Length1 >= 2
    ensures var t, n := Outcome(g, draws, at, k), g.Length0 * g.Length1;
      t.Accepted? ==>
        var a, b := Drawn(draws(at + 2 * k), n), Drawn(draws(at + 2 * k + 1), n);
        1 <= a < n && 1 <= b < n && a != b &&
        g[t.start.row, t.start.col].name == Text.NatToString(a) && g[t.end.row, t.end.col].name == Text.NatToString(b)
  {
  }

  /** An accepted pair is the first one: every attempt before it was skipped. */
  lemma {:induction false} FirstAccepted(outs: seq<Attempt>, i: nat)
    requires i <= |outs|
    ensures var r := Settle(outs, i);
      r.Ok? ==>
        exists k :: i <= k < |outs| && outs[k] == Accepted(r.value.0, r.value.1) &&
          forall j :: i <= j < k ==> outs[j].Skipped?
    decreases |outs| - i
  {
    if i < |outs| && outs[i].Skipped? {
      FirstAccepted(outs, i + 1);
    }
  }

  /** An error other than giving up is the first failed lookup: every attempt before it was skipped. */
  lemma {:induction false} FirstFailed(outs: seq<Attempt>, i: nat)
    requires i <= |outs|
    ensures var r := Settle(outs, i);
      r.Err? && r.error != IllegalArgument(NoStartEndError) ==>
        exists k :: i <= k < |outs| && outs[k] == Failed(r.error) &&
          forall j :: i <= j < k ==> outs[j].Skipped?
    decreases |outs| - i
  {
    if i < |outs| && outs[i].Skipped? {
      FirstFailed(outs, i + 1);
    }
  }

  /** When all remaining attempts are skipped, the search gives up with the "cannot find" error. */
  lemma {:induction false} GivesUp(outs: seq<Attempt>, i: nat)
    requires i <= |outs|
    ensures (forall k :: i <= k < |outs| ==> outs[k].Skipped?) ==> Settle(outs, i) == Err(IllegalArgument(NoStartEndError))
    decreases |outs| - i
  {
    if i < |outs| && outs[i].Skipped? {
      GivesUp(outs, i + 1);
    }
  }

  /** Without failed lookups, a search that ends in an error skipped every attempt. */
  lemma {:induction false} ErrSkipsAll(outs: seq<Attempt>, i: nat)
    requires i <= |outs|
    ensures (forall k :: i <= k < |outs| ==> !outs[k].Failed?) && Settle(outs, i).Err? ==>
      forall k :: i <= k < |outs| ==> outs[k].Skipped?
    decreases |outs| - i
  {
    if i < |outs| && outs[i].Skipped? {
      ErrSkipsAll(outs, i + 1);
    }
  }

  /** What the search settles on: an acceptable pair of differently named nodes, or an IllegalArgumentException. */
  lemma SettledFacts(g: array2<Node>, draws: nat -> nat, at: nat)
    requires LinksInGrid(g) && g.Length0 * g.Length1 >= 2
    ensures var r := Settle(Attempts(g, draws, at), 0);
      (r.Ok? ==>
         InGrid(g, r.value.0) && InGrid(g, r.value.1) && Acceptable(g, r.value.0, r.value.1) &&
         g[r.value.0.row, r.value.0.col].name != g[r.value.1.row, r.value.1.col].name) &&
      (r.Err? ==> r.error.IllegalArgument?)
  {
    var outs := Attempts(g, draws, at);
    FirstAccepted(outs, 0);
    FirstFailed(outs, 0);
  }

  /** The names generateGraph gives: the row-major numbers 1 .. rows * cols. */
  ghost predicate RowMajorNames(g: array2<Node>)
    reads g
  {
    forall r, c :: 0 <= r < g.Length0 && 0 <= c < g.Length1 ==> g[r, c].name == Grid.CellName(g.Length1, Pos(r, c))
  }

  /** On a grid named in row-major order every number 1 .. rows * cols names a node. */
  lemma NumberNamed(g: array2<Node>, k: nat)
    requires RowMajorNames(g) && 1 <= k <= g.Length0 * g.Length1
    ensures Engine.FirstNamed(g, Text.NatToString(k)).Some?
  {
    Grid.NumberedCell(g.Length0, g.Length1, k);
    var p := Pos((k - 1) / g.Length1, (k - 1) % g.Length1);
    assert g[p.row, p.col].name == Text.NatToString(k);
    Engine.FirstNamedIsFirst(g, Text.NatToString(k));
  }

  /** On a grid named in row-major order no lookup of the search fails. */
  lemma RowMajorFound(g: array2<Node>, draws: nat -> nat, at: nat, k: nat)
    requires LinksInGrid(g) && g.Length0 * g.Length1 >= 2 && RowMajorNames(g)
    ensures !Outcome(g, draws, at, k).Failed?
  {
    var n := g.Length0 * g.Length1;
    NumberNamed(g, Drawn(draws(at + 2 * k), n));
    NumberNamed(g, Drawn(draws(at + 2 * k + 1), n));
  }

  /**
   * On a grid named in row-major order the search fails exactly when all
   * 1000 attempts are skipped, and then with the "cannot find" error.
   */
  lemma RowMajorStartEnd(g: array2<Node>, draws: nat -> nat, at: nat)
    requires LinksInGrid(g) && g.Length0 * g.Length1 >= 2 && RowMajorNames(g)
    ensures var r := Settle(Attempts(g, draws, at), 0);
      (r.Err? <==> forall k :: 0 <= k < MaxPatience ==> Outcome(g, draws, at, k).Skipped?) &&
      (r.Err? ==> r == Err(IllegalArgument(NoStartEndError)))
  {
    var outs := Attempts(g, draws, at);
    forall k | 0 <= k < MaxPatience
      ensures !outs[k].Failed?
    {
      RowMajorFound(g, draws, at, k);
    }
    ErrSkipsAll(outs, 0);
    GivesUp(outs, 0);
  }

  // ------------------------------------------------------------------ first free cave

  /**
   * The test the placement scans apply to a node: a cave without an
   * Otyugh whose name differs from each avoided name, compared in order.
   * A missing name is dereferenced only when the comparisons before it
   * passed.
   */
  function FreeCave(n: Node, avoid: seq<Option<string>>): (r: Result<bool>)
    ensures r == Ok(true) ==> n.kind.Cave? && n.kind.otyugh.None? && forall k :: 0 <= k < |avoid| ==> avoid[k] != Some(n.name)
    ensures r.Err? ==> r.error == NullReference
  {
    if !n.kind.Cave? || n.kind.otyugh.Some? then Ok(false)
    else if |avoid| == 0 then Ok(true)
    else if avoid[0].None? then Err(NullReference)
    else if avoid[0].value == n.name then Ok(false)
    else FreeCave(n, avoid[1..])
  }

  /** The first node at or after (i, j), in row-major order, whose test is not Ok(false). */
  function FirstFreeFrom(g: array2<Node>, avoid: seq<Option<string>>, i: nat, j: nat): (r: Result<Option<Pos>>)
    reads g
    ensures r.Ok? && r.value.Some? ==> InGrid(g, r.value.value) && FreeCave(g[r.value.value.row, r.value.value.col], avoid) == Ok(true)
    decreases g.Length0 - i, g.Length1 - j
  {
    if i >= g.Length0 then Ok(None)
    else if j >= g.Length1 then FirstFreeFrom(g, avoid, i + 1, 0)
    else
      var t := FreeCave(g[i, j], avoid);
      if t.Err? then Err(t.error)
      else if t.value then Ok(Some(Pos(i, j)))
      else FirstFreeFrom(g, avoid, i, j + 1)
  }

  function FirstFree(g: array2<Node>, avoid: seq<Option<string>>): Result<Option<Pos>>
    reads g
  {
    FirstFreeFrom(g, avoid, 0, 0)
  }

  /** The row-major scan of the placement helpers, stopping at the first free cave. */
  method FindFree(g: array2<Node>, avoid: seq<Option<string>>) returns (r: Result<Option<Pos>>)
    ensures r == FirstFree(g, avoid)
  {
    for i := 0 to g.Length0
      invariant FirstFreeFrom(g, avoid, i, 0) == FirstFree(g, avoid)
    {
      for j := 0 to g.Length1
        invariant FirstFreeFrom(g, avoid, i, j) == FirstFree(g, avoid)
      {
        var t := FreeCave(g[i, j], avoid);
        if t.Err? {
          return Err(t.error);
        } else if t.value {
          return Ok(Some(Pos(i, j)));
        }
      }
    }
    return Ok(None);
  }

  /** The name at an optional position, absent when the position is. */
  function NameAt(g: array2<Node>, p: Option<Pos>): Option<string>
    reads g
    requires p.Some? ==> InGrid(g, p.value)
  {
    if p.Some? then Some(g[p.value.row, p.value.col].name) else None
  }

  /** addYugolothToDungeon: the first cave without an Otyugh that is not the start receives the Yugoloth. */
  method PlaceYugolothAt(g: array2<Node>, start: Pos) returns (r: Option<Pos>)
    requires LinksInGrid(g) && InGrid(g, start)
    modifies g
    ensures LinksInGrid(g) && ShapesKept(g)
    ensures old(FirstFree(g, [Some(g[start.row, start.col].name)])) == Ok(r)
    ensures r.None? ==> unchanged(g)
    ensures r.Some? ==> var p := r.value;
      InGrid(g, p) && PlaceYugoloth(old(g[p.row, p.col])) == Ok(g[p.row, p.col]) &&
      forall i, j :: 0 <= i < g.Length0 && 0 <= j < g.Length1 && Pos(i, j) != p ==> g[i, j] == old(g[i, j])
  {
    var found := FindFree(g, [Some(g[start.row, start.col].name)]);
    FirstFreeNeverFails(g, g[start.row, start.col].name);
    if found.value.None? {
      return None;
    }
    var p := found.value.value;
    var placed := PlaceYugoloth(g[p.row, p.col]);
    Store(g, p, placed.value);
    return Some(p);
  }

  /**
   * addThiefToDungeon: the first cave without an Otyugh that is neither
   * the Yugoloth's node nor the start receives the thief. Without a
   * Yugoloth position the first such cave has nothing to compare against.
   */
  method PlaceThiefAt(g: array2<Node>, yugoloth: Option<Pos>, start: Pos) returns (r: Result<Option<Pos>>)
    requires LinksInGrid(g) && InGrid(g, start) && (yugoloth.Some? ==> InGrid(g, yugoloth.value))
    modifies g
    ensures LinksInGrid(g) && ShapesKept(g)
    ensures old(FirstFree(g, [NameAt(g, yugoloth), Some(g[start.row, start.col].name)])) == r
    ensures r.Err? || r.value.None? ==> unchanged(g)
    ensures r.Ok? && r.value.Some? ==> var p := r.value.value;
      InGrid(g, p) && PlaceThief(old(g[p.row, p.col])) == Ok(g[p.row, p.col]) &&
      forall i, j :: 0 <= i < g.Length0 && 0 <= j < g.Length1 && Pos(i, j) != p ==> g[i, j] == old(g[i, j])
  {
    r := FindFree(g, [NameAt(g, yugoloth), Some(g[start.row, start.col].name)]);
    if r.Err? || r.value.None? {
      return;
    }
    var p := r.value.value;
    var placed := PlaceThief(g[p.row, p.col]);
    Store(g, p, placed.value);
  }

  /**
   * addPitToDungeon: the first cave without an Otyugh that is not the
   * Yugoloth's node, not the start and not the thief's node gets a pit.
   */
  method PlacePitAt(g: array2<Node>, yugoloth: Option<Pos>, start: Pos, thief: Option<Pos>) returns (r: Result<Option<Pos>>)
    requires LinksInGrid(g) && InGrid(g, start)
    requires yugoloth.Some? ==> InGrid(g, yugoloth.value)
    requires thief.Some? ==> InGrid(g, thief.value)
    modifies g
    ensures LinksInGrid(g) && ShapesKept(g)
    ensures old(FirstFree(g, [NameAt(g, yugoloth), Some(g[start.row, start.col].name), NameAt(g, thief)])) == r
    ensures r.Err? || r.value.None? ==> unchanged(g)
    ensures r.Ok? && r.value.Some? ==> var p := r.value.value;
      InGrid(g, p) && g[p.row, p.col] == old(g[p.row, p.col]).(kind := old(g[p.row, p.col]).kind.(pit := true)) &&
      forall i, j :: 0 <= i < g.Length0 && 0 <= j < g.Length1 && Pos(i, j) != p ==> g[i, j] == old(g[i, j])
  {
    r := FindFree(g, [NameAt(g, yugoloth), Some(g[start.row, start.col].name), NameAt(g, thief)]);
    if r.Err? || r.value.None? {
      return;
    }
    var p := r.value.value;
    var placed := AddPit(g[p.row, p.col]);
    Store(g, p, placed.value);
  }

  /**
   * addOtyughToEndCave: a new Otyugh goes to the end cave when it has
   * none, and otherwise to the first cave without an Otyugh that is not
   * the start (if there is one); it also joins the Otyugh list.
   */
  method OtyughToEnd(g: array2<Node>, start: Pos, end: Pos, counter: nat) returns (r: Result<seq<Otyugh>>)
    requires LinksInGrid(g) && InGrid(g, start) && InGrid(g, end)
    modifies g
    ensures LinksInGrid(g) && ShapesKept(g)
    ensures GetOtyugh(old(g[end.row, end.col])).Err? ==> r == Err(GetOtyugh(old(g[end.row, end.col])).error) && unchanged(g)
    ensures GetOtyugh(old(g[end.row, end.col])) == Ok(None) ==>
      r == Ok([Spawn(counter)]) &&
      g[end.row, end.col] == old(g[end.row, end.col]).(kind := old(g[end.row, end.col]).kind.(otyugh := Some(Spawn(counter)))) &&
      forall i, j :: 0 <= i < g.Length0 && 0 <= j < g.Length1 && Pos(i, j) != end ==> g[i, j] == old(g[i, j])
    ensures GetOtyugh(old(g[end.row, end.col])).Ok? && GetOtyugh(old(g[end.row, end.col])).value.Some? ==>
      var found := old(FirstFree(g, [Some(g[start.row, start.col].name)]));
      found.Ok? &&
      (found.value.None? ==> r == Ok([]) && unchanged(g)) &&
      (found.value.Some? ==>
        var p := found.value.value;
        r == Ok([Spawn(counter)]) &&
        g[p.row, p.col] == old(g[p.row, p.col]).(kind := old(g[p.row, p.col]).kind.(otyugh := Some(Spawn(counter)))) &&
        forall i, j :: 0 <= i < g.Length0 && 0 <= j < g.Length1 && Pos(i, j) != p ==> g[i, j] == old(g[i, j]))
  {
    var current := GetOtyugh(g[end.row, end.col]);
    if current.Err? {
      return Err(current.error);
    }
    var p := end;
    if current.value.Some? {
      var found := FindFree(g, [Some(g[start.row, start.col].name)]);
      FirstFreeNeverFails(g, g[start.row, start.col].name);
      if found.value.None? {
        return Ok([]);
      }
      p := found.value.value;
    }
    var o := Spawn(counter);
    var placed := PlaceOtyugh(g[p.row, p.col], o);
    Store(g, p, placed.value);
    return Ok([o]);
  }

  // ------------------------------------------------------------------ lemmas

  /** With only present names to avoid, the scan never dereferences a missing one. */
  lemma FirstFreeNeverFails(g: array2<Node>, name: string)
    ensures FirstFree(g, [Some(name)]).Ok?
  {
    FirstFreeScanOk(g, [Some(name)], 0, 0);
  }

  lemma {:induction false} FirstFreeScanOk(g: array2<Node>, avoid: seq<Option<string>>, i: nat, j: nat)
    requires forall k :: 0 <= k < |avoid| ==> avoid[k].Some?
    ensures FirstFreeFrom(g, avoid, i, j).Ok?
    decreases g.Length0 - i, g.Length1 - j
  {
    if i >= g.Length0 {
    } else if j >= g.Length1 {
      FirstFreeScanOk(g, avoid, i + 1, 0);
    } else {
      FreeCaveOk(g[i, j], avoid);
      FirstFreeScanOk(g, avoid, i, j + 1);
    }
  }

  /** The test of one node fails only on a missing name. */
  lemma {:induction false} FreeCaveOk(n: Node, avoid: seq<Option<string>>)
    requires forall k :: 0 <= k < |avoid| ==> avoid[k].Some?
    ensures FreeCave(n, avoid).Ok?
    ensures FreeCave(n, avoid) == Ok(true) <==>
      n.kind.Cave? && n.kind.otyugh.None? && forall k :: 0 <= k < |avoid| ==> avoid[k].value != n.name
  {
    if n.kind.Cave? && n.kind.otyugh.None? && |avoid| > 0 && avoid[0].value != n.name {
      FreeCaveOk(n, avoid[1..]);
      assert forall k :: 1 <= k < |avoid| ==> avoid[k] == avoid[1..][k - 1];
    }
  }

  /**
   * The scan finds the first free cave in row-major order: it is free and
   * every node before it is not; when it finds none, no node is free.
   */
  lemma FirstFreeIsFirst(g: array2<Node>, avoid: seq<Option<string>>)
    requires forall k :: 0 <= k < |avoid| ==> avoid[k].Some?
    ensures FirstFree(g, avoid).Ok?
    ensures FirstFree(g, avoid) == Ok(None) <==>
      forall i, j :: 0 <= i < g.Length0 && 0 <= j < g.Length1 ==> FreeCave(g[i, j], avoid) == Ok(false)
    ensures FirstFree(g, avoid).Ok? && FirstFree(g, avoid).value.Some? ==>
      forall i, j :: 0 <= i < g.Length0 && 0 <= j < g.Length1 && Engine.Before(i, j, FirstFree(g, avoid).value.value) ==>
        FreeCave(g[i, j], avoid) == Ok(false)
  {
    FirstFreeScanOk(g, avoid, 0, 0);
    FirstFreeScan(g, avoid, 0, 0);
  }

  lemma {:induction false} FirstFreeScan(g: array2<Node>, avoid: seq<Option<string>>, i: nat, j: nat)
    requires j <= g.Length1
    requires forall k :: 0 <= k < |avoid| ==> avoid[k].Some?
    ensures var f := FirstFreeFrom(g, avoid, i, j);
      (f == Ok(None) <==>
        forall r, c :: 0 <= r < g.Length0 && 0 <= c < g.Length1 && (r > i || (r == i && c >= j)) ==>
          FreeCave(g[r, c], avoid) == Ok(false)) &&
      (f.Ok? && f.value.Some? ==>
        forall r, c ::
          0 <= r < g.Length0 && 0 <= c < g.Length1 && (r > i || (r == i && c >= j)) && Engine.Before(r, c, f.value.value) ==>
          FreeCave(g[r, c], avoid) == Ok(false))
    decreases g.Length0 - i, g.Length1 - j
  {
    if i >= g.Length0 {
    } else if j >= g.Length1 {
      FirstFreeScan(g, avoid, i + 1, 0);
    } else {
      FreeCaveOk(g[i, j], avoid);
      FirstFreeScan(g, avoid, i, j + 1);
      FirstFreeScanOk(g, avoid, i, j + 1);
    }
  }

}
