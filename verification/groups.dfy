/** Lending groups: the pledges lenders make to a group and the credential
    they all receive once the group is fully funded (`GroupLender`,
    `Lender` and `GroupLenderM` in lending_requests.py). Amounts are exact
    reals where the source uses floats. */
module Groups {
  import opened Base

  /** `Lender`: one pledge to a group; the key is set once the group is funded. */
  datatype Pledge = Pledge(name: string, amount: real, participationKey: Option<string>)

  /** `GroupLenderM`: the split rate is a fraction of the total, despite the
      source's "in percent" field name. */
  datatype Group = Group(name: string, totalAmount: real, splitRate: real, lenders: seq<Pledge>)

  /** `calculate_total_lended`: the running sum of pledge amounts, first
      pledge first; no pledge of a negative amount, no negative total. */
  function TotalLended(lenders: seq<Pledge>): (t: real)
    ensures (forall i :: 0 <= i < |lenders| ==> lenders[i].amount >= 0.0) ==> t >= 0.0
    decreases |lenders|
  {
    if lenders == [] then 0.0
    else TotalLended(lenders[..|lenders| - 1]) + lenders[|lenders| - 1].amount
  }

  /** The total of two pledge lists laid end to end is the sum of their totals. */
  lemma {:induction false} TotalLendedConcat(a: seq<Pledge>, b: seq<Pledge>)
    ensures TotalLended(a + b) == TotalLended(a) + TotalLended(b)
    decreases |b|
  {
    if b == [] {
      assert a + b == a;
    } else {
      var b' := b[..|b| - 1];
      assert (a + b)[..|a + b| - 1] == a + b';
      TotalLendedConcat(a, b');
    }
  }

  /** Appending one pledge raises the total by exactly its amount. */
  lemma TotalLendedAppend(lenders: seq<Pledge>, p: Pledge)
    ensures TotalLended(lenders + [p]) == TotalLended(lenders) + p.amount
  {
    TotalLendedConcat(lenders, [p]);
    assert TotalLended([p]) == TotalLended([]) + p.amount by {
      assert [p][..0] == [];
    }
  }

  /** Every lender of a group pledges the same amount, so the total is that
      amount times the number of lenders. */
  lemma {:induction false} UniformPledgesTotal(lenders: seq<Pledge>, a: real)
    requires forall i :: 0 <= i < |lenders| ==> lenders[i].amount == a
    ensures TotalLended(lenders) == |lenders| as real * a
    decreases |lenders|
  {
    if lenders != [] {
      UniformPledgesTotal(lenders[..|lenders| - 1], a);
    }
  }

  /** `process_lender_stake`: every pledge receives the same credential (the
      text of one freshly generated public key, passed in as `key`). */
  function ProcessLenderStake(lenders: seq<Pledge>, key: string): (r: seq<Pledge>)
    ensures |r| == |lenders|
    ensures forall i :: 0 <= i < |r| ==>
      r[i].name == lenders[i].name && r[i].amount == lenders[i].amount && r[i].participationKey == Some(key)
  {
    seq(|lenders|, i requires 0 <= i < |lenders| => lenders[i].(participationKey := Some(key)))
  }

  /** Two pledge lists with the same amounts, position by position, have the same total. */
  lemma {:induction false} TotalLendedSameAmounts(a: seq<Pledge>, b: seq<Pledge>)
    requires |a| == |b|
    requires forall i :: 0 <= i < |a| ==> a[i].amount == b[i].amount
    ensures TotalLended(a) == TotalLended(b)
    decreases |a|
  {
    if a != [] {
      TotalLendedSameAmounts(a[..|a| - 1], b[..|b| - 1]);
    }
  }

  /** Issuing credentials does not change how much the group has pledged. */
  lemma StakeKeepsTotal(lenders: seq<Pledge>, key: string)
    ensures TotalLended(ProcessLenderStake(lenders, key)) == TotalLended(lenders)
  {
    TotalLendedSameAmounts(ProcessLenderStake(lenders, key), lenders);
  }

  /** Some pledge's name equals `name` ignoring case (the intended test of
      the duplicate-lender loop). */
  predicate HasLender(lenders: seq<Pledge>, name: string) {
    exists i :: 0 <= i < |lenders| && Lower(lenders[i].name) == Lower(name)
  }

  /** No two pledges of a group belong to the same lender, ignoring case. */
  predicate DistinctLenders(lenders: seq<Pledge>) {
    forall i, j :: 0 <= i < j < |lenders| ==> Lower(lenders[i].name) != Lower(lenders[j].name)
  }

  /** A lender not yet in the group can be added without repeating anyone. */
  lemma AddNewLenderKeepsDistinct(lenders: seq<Pledge>, p: Pledge)
    requires DistinctLenders(lenders) && !HasLender(lenders, p.name)
    ensures DistinctLenders(lenders + [p])
  {
    var ls := lenders + [p];
    forall a, b | 0 <= a < b < |ls|
      ensures Lower(ls[a].name) != Lower(ls[b].name)
    {
      if b == |lenders| {
        assert Lower(lenders[a].name) != Lower(p.name);
      }
    }
  }

  /** Issuing credentials keeps the lenders' names. */
  lemma StakeKeepsDistinct(lenders: seq<Pledge>, key: string)
    requires DistinctLenders(lenders)
    ensures DistinctLenders(ProcessLenderStake(lenders, key))
  {
  }
}
