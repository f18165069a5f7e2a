/** The matrix seeding at the start of `handleMerges`: decisions already
    taken (`match` and `update` entries of an earlier run) are written into a
    fresh matrix, so that a later clustering pass treats their records as
    already placed, and are collected into `matchSet`. */
module Seeding {
  import opened Util
  import opened Records
  import opened Clustering

  /** The type key of a decision: its head's resource type. */
  function KeyOf(c: Comp): string {
    c.lhs.resourceType
  }

  /** The matrix key of a decision's head. */
  function HeadId(c: Comp): string {
    NormId(KeyOf(c), c.lhs)
  }

  /** The records a decision places under its head: the members of a
      `match`, the `rhs` of an `update` (treated like a match on this second
      pass), nothing for a `new`. */
  function Placed(c: Comp): seq<Rec> {
    match c
    case Match(_, ms) => ms
    case Update(_, rhs, _, _) => [rhs]
    case New(_) => []
  }

  /** The matrix keys a decision places under its head. */
  ghost predicate PlacedId(c: Comp, k: string) {
    exists r :: r in Placed(c) && NormId(KeyOf(c), r) == k
  }

  /** The inner loop over a decision's placed records, each mapped to `head`. */
  function PlaceAll(m: Matrix, key: string, rs: seq<Rec>, head: string): (r: Matrix)
    ensures forall k :: k in r <==> k in m || exists x :: x in rs && NormId(key, x) == k
    ensures forall k :: k in r ==> r[k] == head || (k in m && r[k] == m[k])
    ensures forall x :: x in rs ==> r[NormId(key, x)] == head
    ensures forall k :: k in m && (forall x :: x in rs ==> NormId(key, x) != k) ==> r[k] == m[k]
  {
    if rs == [] then m
    else
      var init := rs[..|rs| - 1];
      var last := rs[|rs| - 1];
      assert rs == init + [last];
      PlaceAll(m, key, init, head)[NormId(key, last) := head]
  }

  /** One decision: `match` and `update` go to `matchSet`, their head maps
      to itself and their placed records to the head; others are skipped. */
  function SeedStep(m: Matrix, ms: seq<Comp>, c: Comp): (Matrix, seq<Comp>) {
    if c.New? then (m, ms)
    else (PlaceAll(m[HeadId(c) := HeadId(c)], KeyOf(c), Placed(c), HeadId(c)), ms + [c])
  }

  /** The seeding loop over the first `k` decisions. */
  function SeedUpTo(decisions: seq<Comp>, k: nat): (Matrix, seq<Comp>)
    requires k <= |decisions|
  {
    if k == 0 then (map[], [])
    else
      var (m, ms) := SeedUpTo(decisions, k - 1);
      SeedStep(m, ms, decisions[k - 1])
  }

  /** The seeding loop of `handleMerges`. */
  method SeedMatrix(decisions: seq<Comp>) returns (matrix: Matrix, matchSet: seq<Comp>)
    ensures (matrix, matchSet) == SeedUpTo(decisions, |decisions|)
  {
    matrix := map[];
    matchSet := [];
    var i := 0;
    while i < |decisions|
      invariant 0 <= i <= |decisions|
      invariant (matrix, matchSet) == SeedUpTo(decisions, i)
    {
      var c := decisions[i];
      assert SeedUpTo(decisions, i + 1) == SeedStep(matrix, matchSet, c);
      var key := c.lhs.resourceType;
      if c.Match? || c.Update? {
        var id1 := NormId(key, c.lhs);
        matchSet := matchSet + [c];
        matrix := matrix[id1 := id1];
        var placed := if c.Match? then c.matches else [c.rhs];
        matrix := PlaceUnder(matrix, key, placed, id1);
      }
      i := i + 1;
    }
  }

  /** The inner loop: every placed record's key is mapped to the head. */
  method PlaceUnder(m0: Matrix, key: string, placed: seq<Rec>, id1: string) returns (matrix: Matrix)
    ensures matrix == PlaceAll(m0, key, placed, id1)
  {
    matrix := m0;
    var j := 0;
    while j < |placed|
      invariant 0 <= j <= |placed|
      invariant matrix == PlaceAll(m0, key, placed[..j], id1)
    {
      assert placed[..j + 1] == placed[..j] + [placed[j]];
      matrix := matrix[NormId(key, placed[j]) := id1];
      j := j + 1;
    }
    assert placed[..j] == placed;
  }

  /** `matchSet` holds the `match` and `update` decisions, in order, and
      nothing else. */
  lemma {:induction false} SeedMatchSet(decisions: seq<Comp>, k: nat)
    requires k <= |decisions|
    ensures var ms := SeedUpTo(decisions, k).1;
      forall c :: c in ms <==> c in decisions[..k] && !c.New?
    decreases k
  {
    if k > 0 {
      SeedMatchSet(decisions, k - 1);
      assert decisions[..k] == decisions[..k - 1] + [decisions[k - 1]];
    }
  }

  /** The matrix keys one decision contributes: its head and the records it
      places, none for a `new`. */
  ghost function IdsOf(c: Comp): set<string> {
    if c.New? then {} else {HeadId(c)} + set r | r in Placed(c) :: NormId(KeyOf(c), r)
  }

  /** The matrix keys a list of decisions contributes. */
  ghost function SeedIds(ds: seq<Comp>): set<string> {
    if ds == [] then {} else SeedIds(ds[..|ds| - 1]) + IdsOf(ds[|ds| - 1])
  }

  /** The heads of the `match` and `update` decisions in a list. */
  ghost function Heads(ds: seq<Comp>): set<string> {
    set c | c in ds && !c.New? :: HeadId(c)
  }

  /** The matrix keys are exactly the heads and placed records of the
      `match` and `update` decisions, and every value is one of those
      decisions' heads. */
  lemma {:induction false} SeedKeys(decisions: seq<Comp>, k: nat)
    requires k <= |decisions|
    ensures var m := SeedUpTo(decisions, k).0;
      && m.Keys == SeedIds(decisions[..k])
      && forall id :: id in m ==> m[id] in Heads(decisions[..k])
    decreases k
  {
    if k > 0 {
      SeedKeys(decisions, k - 1);
      var c := decisions[k - 1];
      assert decisions[..k][..k - 1] == decisions[..k - 1];
      assert decisions[..k] == decisions[..k - 1] + [c];
      var m := SeedUpTo(decisions, k - 1).0;
      var m' := SeedUpTo(decisions, k).0;
      assert Heads(decisions[..k - 1]) <= Heads(decisions[..k]);
      if !c.New? {
        assert m' == PlaceAll(m[HeadId(c) := HeadId(c)], KeyOf(c), Placed(c), HeadId(c));
        assert HeadId(c) in Heads(decisions[..k]);
      }
    }
  }

  /** No head of a decision is placed under another head. */
  ghost predicate HeadsNotPlaced(decisions: seq<Comp>) {
    forall c, c' :: c in decisions && c' in decisions && !c.New? && !c'.New? ==> !PlacedId(c', HeadId(c))
  }

  /** When no head is also placed by some decision, the seeded matrix is
      closed: every record points at a head that points at itself, as the
      clustering pass relies on. */
  lemma SeedClosed(decisions: seq<Comp>)
    requires HeadsNotPlaced(decisions)
    ensures Closed(SeedUpTo(decisions, |decisions|).0)
  {
    SeedHeadsFixed(decisions, |decisions|);
    SeedKeys(decisions, |decisions|);
    assert decisions[..|decisions|] == decisions;
  }

  lemma {:induction false} SeedHeadsFixed(decisions: seq<Comp>, k: nat)
    requires k <= |decisions| && HeadsNotPlaced(decisions)
    ensures var m := SeedUpTo(decisions, k).0;
      forall c :: c in decisions[..k] && !c.New? ==> HeadId(c) in m && m[HeadId(c)] == HeadId(c)
    decreases k
  {
    if k > 0 {
      SeedHeadsFixed(decisions, k - 1);
      assert decisions[..k] == decisions[..k - 1] + [decisions[k - 1]];
      var c := decisions[k - 1];
      var m := SeedUpTo(decisions, k - 1).0;
      var m' := SeedUpTo(decisions, k).0;
      if !c.New? {
        assert m' == PlaceAll(m[HeadId(c) := HeadId(c)], KeyOf(c), Placed(c), HeadId(c));
        forall c' | c' in decisions[..k] && !c'.New?
          ensures HeadId(c') in m' && m'[HeadId(c')] == HeadId(c')
        {
          assert c' in decisions;
          assert !PlacedId(c, HeadId(c'));
          assert forall x :: x in Placed(c) ==> NormId(KeyOf(c), x) != HeadId(c');
        }
      }
    }
  }
}
