/** The arg-max scan both greedy loops of the system use: walk the candidates
    in order, keep the first eligible one, and replace the current best only
    by a strictly higher score or, on an equal score, by a smaller id. */
module Greedy {
  import opened Results
  import opened Strings

  datatype Bid = Bid(score: int, id: string, eligible: bool)

  /** `a` would displace `b` as the best so far. */
  predicate Outbids(a: Bid, b: Bid) {
    a.score > b.score || (a.score == b.score && Less(a.id, b.id))
  }

  lemma OutbidsTransitive(a: Bid, b: Bid, c: Bid)
    requires Outbids(a, b) && Outbids(b, c)
    ensures Outbids(a, c)
  {
    if a.score == b.score == c.score {
      LessTransitive(a.id, b.id, c.id);
    }
  }

  lemma OutbidsIrreflexive(a: Bid)
    ensures !Outbids(a, a)
  {
    LessIrreflexive(a.id);
  }

  /** Index of the winning bid, `None` when no bid is eligible. */
  function PickBest(bids: seq<Bid>): (r: Option<nat>)
    ensures r.None? <==> forall i :: 0 <= i < |bids| ==> !bids[i].eligible
    ensures r.Some? ==> r.value < |bids| && bids[r.value].eligible
    ensures r.Some? ==> forall i :: 0 <= i < |bids| && bids[i].eligible ==> !Outbids(bids[i], bids[r.value])
  {
    if |bids| == 0 then None
    else
      var prev := PickBest(bids[..|bids| - 1]);
      var c := bids[|bids| - 1];
      assert forall i :: 0 <= i < |bids| - 1 ==> bids[..|bids| - 1][i] == bids[i];
      if !c.eligible then prev
      else if prev.None? then
        OutbidsIrreflexive(c);
        Some(|bids| - 1)
      else if Outbids(c, bids[prev.value]) then
        OutbidsIrreflexive(c);
        assert forall i :: 0 <= i < |bids| - 1 && bids[i].eligible ==> !Outbids(bids[i], c) by {
          forall i | 0 <= i < |bids| - 1 && bids[i].eligible
            ensures !Outbids(bids[i], c)
          {
            if Outbids(bids[i], c) {
              OutbidsTransitive(bids[i], c, bids[prev.value]);
            }
          }
        }
        Some(|bids| - 1)
      else prev
  }

  /** The winner is unique: any eligible bid no other eligible bid outbids is
      the one `PickBest` returns, as long as ids are distinct. */
  lemma PickBestUnique(bids: seq<Bid>, k: nat)
    requires k < |bids| && bids[k].eligible
    requires forall i :: 0 <= i < |bids| && bids[i].eligible ==> !Outbids(bids[i], bids[k])
    requires forall i, j :: 0 <= i < j < |bids| ==> bids[i].id != bids[j].id
    ensures PickBest(bids) == Some(k)
  {
    var r := PickBest(bids);
    assert r.Some?;
    var w := r.value;
    if w != k {
      assert !Outbids(bids[k], bids[w]) && !Outbids(bids[w], bids[k]);
      LessTotal(bids[k].id, bids[w].id);
    }
  }
}
