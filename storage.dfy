/** services/storageService.ts: the whole proposal collection kept as one stored value. */
module Storage {
  import opened Types

  /** True when some proposal of `xs` carries `id` (Array.prototype.some on the id). */
  predicate ContainsId(xs: seq<Proposal>, id: string)
  {
    exists k :: 0 <= k < |xs| && xs[k].id == id
  }

  /** No two proposals of `xs` share an id. */
  predicate UniqueIds(xs: seq<Proposal>)
  {
    forall i, j :: 0 <= i < j < |xs| ==> xs[i].id != xs[j].id
  }

  /** Number of proposals of `xs` whose id is `id`. */
  function CountId(xs: seq<Proposal>, id: string): nat
  {
    if xs == [] then 0 else (if xs[0].id == id then 1 else 0) + CountId(xs[1..], id)
  }

  /** The `map` of updateProposal: every element with p's id becomes p. */
  function ReplaceById(xs: seq<Proposal>, p: Proposal): (r: seq<Proposal>)
    ensures |r| == |xs|
    ensures forall k :: 0 <= k < |xs| && xs[k].id == p.id ==> r[k] == p
    ensures forall k :: 0 <= k < |xs| && xs[k].id != p.id ==> r[k] == xs[k]
    ensures !ContainsId(xs, p.id) ==> r == xs
  {
    if xs == [] then []
    else [if xs[0].id == p.id then p else xs[0]] + ReplaceById(xs[1..], p)
  }

  /** The `filter` of deleteProposal: the elements whose id differs from `id`. */
  function RemoveById(xs: seq<Proposal>, id: string): (r: seq<Proposal>)
    ensures |r| == |xs| - CountId(xs, id)
    ensures forall q :: q in r <==> q in xs && q.id != id
  {
    if xs == [] then []
    else if xs[0].id == id then RemoveById(xs[1..], id)
    else [xs[0]] + RemoveById(xs[1..], id)
  }

  /** Filtering keeps order: it distributes over concatenation. */
  lemma {:induction false} RemoveByIdAppend(a: seq<Proposal>, b: seq<Proposal>, id: string)
    ensures RemoveById(a + b, id) == RemoveById(a, id) + RemoveById(b, id)
  {
    if a == [] {
      assert a + b == b;
    } else {
      assert a + b == [a[0]] + (a[1..] + b);
      assert (a + b)[1..] == a[1..] + b;
      RemoveByIdAppend(a[1..], b, id);
      if a[0].id != id {
        var ra, rb := RemoveById(a[1..], id), RemoveById(b, id);
        assert [a[0]] + (ra + rb) == ([a[0]] + ra) + rb;
      }
    }
  }

  /** When no element carries `id`, the filter returns the collection unchanged. */
  lemma {:induction false} RemoveByIdAbsent(xs: seq<Proposal>, id: string)
    requires !ContainsId(xs, id)
    ensures RemoveById(xs, id) == xs
  {
    if xs != [] {
      assert !ContainsId(xs[1..], id) by {
        forall k | 0 <= k < |xs[1..]| ensures xs[1..][k].id != id {
          assert xs[1..][k] == xs[k + 1];
        }
      }
      RemoveByIdAbsent(xs[1..], id);
    }
  }

  /** Deleting twice leaves what deleting once left. */
  lemma RemoveByIdIdempotent(xs: seq<Proposal>, id: string)
    ensures RemoveById(RemoveById(xs, id), id) == RemoveById(xs, id)
  {
    var r := RemoveById(xs, id);
    assert !ContainsId(r, id) by {
      forall k | 0 <= k < |r| ensures r[k].id != id {
        assert r[k] in r;
      }
    }
    RemoveByIdAbsent(r, id);
  }

  /** Updating twice with the same proposal leaves what updating once left. */
  lemma ReplaceByIdIdempotent(xs: seq<Proposal>, p: Proposal)
    ensures ReplaceById(ReplaceById(xs, p), p) == ReplaceById(xs, p)
  {
    var r := ReplaceById(xs, p);
    var rr := ReplaceById(r, p);
    forall k | 0 <= k < |xs| ensures rr[k] == r[k] {
      if xs[k].id == p.id {
        assert r[k] == p;
      }
    }
  }

  /** With unique ids, an id occurs at most once, and exactly once when present. */
  lemma {:induction false} CountIdUnique(xs: seq<Proposal>, id: string)
    requires UniqueIds(xs)
    ensures CountId(xs, id) == if ContainsId(xs, id) then 1 else 0
  {
    if xs != [] {
      var tail := xs[1..];
      assert UniqueIds(tail) by {
        forall i, j | 0 <= i < j < |tail| ensures tail[i].id != tail[j].id {
          assert tail[i] == xs[i + 1] && tail[j] == xs[j + 1];
        }
      }
      CountIdUnique(tail, id);
      if xs[0].id == id {
        assert !ContainsId(tail, id) by {
          forall k | 0 <= k < |tail| ensures tail[k].id != id {
            assert tail[k] == xs[k + 1];
          }
        }
      }
      assert ContainsId(xs, id) <==> xs[0].id == id || ContainsId(tail, id) by {
        if ContainsId(tail, id) {
          var k :| 0 <= k < |tail| && tail[k].id == id;
          assert xs[k + 1].id == id;
        }
        if ContainsId(xs, id) && xs[0].id != id {
          var k :| 0 <= k < |xs| && xs[k].id == id;
          assert tail[k - 1].id == id;
        }
      }
    }
  }

  /** With unique ids, deleting a present id shortens the collection by exactly one. */
  lemma RemoveByIdShrinksByOne(xs: seq<Proposal>, id: string)
    requires UniqueIds(xs) && ContainsId(xs, id)
    ensures |RemoveById(xs, id)| == |xs| - 1
  {
    CountIdUnique(xs, id);
  }

  /** Replacing by id keeps every id where it was, so unique ids stay unique. */
  lemma ReplaceByIdKeepsUnique(xs: seq<Proposal>, p: Proposal)
    requires UniqueIds(xs)
    ensures UniqueIds(ReplaceById(xs, p))
  {
    var r := ReplaceById(xs, p);
    assert forall k :: 0 <= k < |xs| ==> r[k].id == xs[k].id;
  }

  /** Filtering keeps unique ids unique. */
  lemma {:induction false} RemoveByIdKeepsUnique(xs: seq<Proposal>, id: string)
    requires UniqueIds(xs)
    ensures UniqueIds(RemoveById(xs, id))
  {
    if xs != [] {
      var tail := xs[1..];
      assert UniqueIds(tail) by {
        forall i, j | 0 <= i < j < |tail| ensures tail[i].id != tail[j].id {
          assert tail[i] == xs[i + 1] && tail[j] == xs[j + 1];
        }
      }
      RemoveByIdKeepsUnique(tail, id);
      if xs[0].id != id {
        var rest := RemoveById(tail, id);
        forall k | 0 <= k < |rest| ensures rest[k].id != xs[0].id {
          assert rest[k] in rest;
          var j :| 0 <= j < |tail| && tail[j] == rest[k];
          assert tail[j] == xs[j + 1];
        }
      }
    }
  }

  /** Prepending a proposal whose id is new keeps ids unique. */
  lemma PrependKeepsUnique(xs: seq<Proposal>, p: Proposal)
    requires UniqueIds(xs) && !ContainsId(xs, p.id)
    ensures UniqueIds([p] + xs)
  {
    var r := [p] + xs;
    forall i, j | 0 <= i < j < |r| ensures r[i].id != r[j].id {
      assert r[j] == xs[j - 1];
      if i > 0 { assert r[i] == xs[i - 1]; }
    }
  }

  /**
   * The adapter. `stored` is the value under the fixed storage key; None
   * stands for a key that was never written.
   */
  class ProposalStore {
    var stored: Option<seq<Proposal>>

    /** A fresh browser profile: nothing stored yet. */
    constructor ()
      ensures stored == None
    {
      stored := None;
    }

    /** What getProposals reads back: the stored collection, or [] when the key is absent. */
    function Contents(): seq<Proposal>
      reads this
    {
      if stored.Some? then stored.value else []
    }

    method GetProposals() returns (r: seq<Proposal>)
      ensures stored == None ==> r == []
      ensures stored.Some? ==> r == stored.value
    {
      if stored.Some? {
        r := stored.value;
      } else {
        r := [];
      }
    }

    /** Overwrites the whole collection. */
    method SaveProposals(xs: seq<Proposal>)
      modifies this
      ensures stored == Some(xs)
      ensures Contents() == xs
    {
      stored := Some(xs);
    }

    method AddProposal(p: Proposal) returns (updated: seq<Proposal>)
      modifies this
      ensures updated == [p] + old(Contents())
      ensures Contents() == updated
    {
      var existing := GetProposals();
      updated := [p] + existing;
      SaveProposals(updated);
    }

    method UpdateProposal(p: Proposal) returns (updated: seq<Proposal>)
      modifies this
      ensures updated == ReplaceById(old(Contents()), p)
      ensures Contents() == updated
    {
      var existing := GetProposals();
      updated := ReplaceById(existing, p);
      SaveProposals(updated);
    }

    method DeleteProposal(id: string) returns (updated: seq<Proposal>)
      modifies this
      ensures updated == RemoveById(old(Contents()), id)
      ensures Contents() == updated
    {
      var existing := GetProposals();
      updated := RemoveById(existing, id);
      SaveProposals(updated);
    }
  }

  /** Reading right after saving gives back exactly what was saved. */
  method SaveThenGet(store: ProposalStore, xs: seq<Proposal>) returns (r: seq<Proposal>)
    modifies store
    ensures r == xs
  {
    store.SaveProposals(xs);
    r := store.GetProposals();
  }
}
