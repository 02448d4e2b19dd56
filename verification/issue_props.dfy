/** What issue promises: at most `width` instructions leave IQ_reg for the
    end of execute_list, each the oldest ready one at its turn, and nothing
    is lost or duplicated on the way. */
module IssueProps {
  import opened Records
  import opened Seqs
  import opened Stages

  predicate AgesAscending(s: seq<Instruction>)
  {
    forall i, j :: 0 <= i < j < |s| ==> s[i].age <= s[j].age
  }

  /** The contract of the selection rounds, with `issued` the instructions
      appended to `ex`. */
  predicate Selected(iq: seq<Instruction>, ex: seq<Instruction>, n: nat, iq': seq<Instruction>, ex': seq<Instruction>)
  {
    |ex| <= |ex'| && ex'[..|ex|] == ex &&
    var issued := ex'[|ex|..];
    |issued| <= n &&
    multiset(iq') + multiset(issued) == multiset(iq) &&
    (forall x :: x in issued ==> IsReady(x)) &&
    AgesAscending(issued) &&
    (forall x, y :: x in issued && y in iq' && IsReady(y) ==> x.age <= y.age) &&
    (|issued| < n ==> forall y :: y in iq' ==> !IsReady(y))
  }

  /** Every instruction left in a sub-multiset of `iq` was in `iq`. */
  lemma SubMember(iq: seq<Instruction>, rest: seq<Instruction>, more: multiset<Instruction>, y: Instruction)
    requires multiset(rest) + more == multiset(iq) && y in rest
    ensures y in iq
  {
    assert y in multiset(rest);
    assert y in multiset(iq);
  }

  /** One round when IQ_reg holds no ready instruction: nothing moves. */
  lemma {:induction false} NoneReady(iq: seq<Instruction>, ex: seq<Instruction>, n: nat)
    requires 0 < n && OldestReady(iq) == None
    requires var (iq', ex') := IssueRounds(iq, ex, n - 1); Selected(iq, ex, n - 1, iq', ex')
    ensures var (iq', ex') := IssueRounds(iq, ex, n); Selected(iq, ex, n, iq', ex')
  {
    var (iq', ex') := IssueRounds(iq, ex, n);
    var issued := ex'[|ex|..];
    forall y | y in iq' ensures !IsReady(y) {
      SubMember(iq, iq', multiset(issued), y);
    }
  }

  /** An instruction no younger than any of an age-ordered sequence can go
      in front of it. */
  lemma PrependAscending(x: Instruction, rest: seq<Instruction>)
    requires AgesAscending(rest) && forall z :: z in rest ==> x.age <= z.age
    ensures AgesAscending([x] + rest)
  {
    var issued := [x] + rest;
    forall i, j | 0 <= i < j < |issued| ensures issued[i].age <= issued[j].age {
      assert issued[j] == rest[j - 1];
      if i > 0 {
        assert issued[i] == rest[i - 1];
      }
    }
  }

  /** The order facts of the rounds after one more instruction `x`, no
      younger than any ready instruction of `iq1`, is put in front of what
      they issue. */
  lemma PrependOldest(x: Instruction, iq1: seq<Instruction>, iq': seq<Instruction>, rest: seq<Instruction>)
    requires IsReady(x) && forall y :: y in iq1 && IsReady(y) ==> x.age <= y.age
    requires multiset(iq') + multiset(rest) == multiset(iq1)
    requires (forall z :: z in rest ==> IsReady(z)) && AgesAscending(rest)
    requires forall z, y :: z in rest && y in iq' && IsReady(y) ==> z.age <= y.age
    ensures var issued := [x] + rest;
      (forall z :: z in issued ==> IsReady(z)) && AgesAscending(issued) &&
      (forall z, y :: z in issued && y in iq' && IsReady(y) ==> z.age <= y.age)
  {
    forall z | z in rest ensures x.age <= z.age {
      SubMember(iq1, rest, multiset(iq'), z);
    }
    PrependAscending(x, rest);
    forall y | y in iq' ensures y in iq1 {
      SubMember(iq1, iq', multiset(rest), y);
    }
  }

  /** `ex'` extends `ex + [x]`: it extends `ex`, and what it adds starts with `x`. */
  lemma SplitIssued(ex: seq<Instruction>, x: Instruction, ex': seq<Instruction>)
    requires |ex| + 1 <= |ex'| && ex'[..|ex| + 1] == ex + [x]
    ensures ex'[..|ex|] == ex && ex'[|ex|..] == [x] + ex'[|ex| + 1..]
  {
    var m := |ex|;
    assert ex'[m] == ex'[..m + 1][m];
    assert ex'[..m] == ex'[..m + 1][..m];
  }

  /** The oldest ready instruction of `iq` is no younger than any ready one
      left once it is removed. */
  lemma OldestOfRest(iq: seq<Instruction>, k: nat)
    requires k < |iq| && forall j :: 0 <= j < |iq| && IsReady(iq[j]) ==> iq[k].age <= iq[j].age
    ensures forall y :: y in RemoveAt(iq, k) && IsReady(y) ==> iq[k].age <= y.age
  {
    RemoveAtMembers(iq, k);
    forall y | y in RemoveAt(iq, k) && IsReady(y) ensures iq[k].age <= y.age {
      var j :| 0 <= j < |iq| && iq[j] == y;
    }
  }

  /** One round that moves `iq[k]`, the oldest ready instruction, in front
      of what the remaining rounds issue. */
  lemma OneIssued(iq: seq<Instruction>, ex: seq<Instruction>, n: nat, k: nat, iq': seq<Instruction>, ex': seq<Instruction>)
    requires 0 < n && k < |iq| && IsReady(iq[k])
    requires forall j :: 0 <= j < |iq| && IsReady(iq[j]) ==> iq[k].age <= iq[j].age
    requires Selected(RemoveAt(iq, k), ex + [iq[k]], n - 1, iq', ex')
    ensures Selected(iq, ex, n, iq', ex')
  {
    var x := iq[k];
    var rest := ex'[|ex| + 1..];
    SplitIssued(ex, x, ex');
    RemoveAtMultiset(iq, k);
    OldestOfRest(iq, k);
    PrependOldest(x, RemoveAt(iq, k), iq', rest);
  }

  /** `n` selection rounds meet the contract above. */
  lemma {:induction false} IssueRoundsSelect(iq: seq<Instruction>, ex: seq<Instruction>, n: nat)
    ensures var (iq', ex') := IssueRounds(iq, ex, n); Selected(iq, ex, n, iq', ex')
    decreases n
  {
    if n == 0 {
      assert ex[|ex|..] == [];
    } else {
      match OldestReady(iq)
      case None =>
        IssueRoundsSelect(iq, ex, n - 1);
        NoneReady(iq, ex, n);
      case Some(k) =>
        var (iq', ex') := IssueRounds(RemoveAt(iq, k), ex + [iq[k]], n - 1);
        IssueRoundsSelect(RemoveAt(iq, k), ex + [iq[k]], n - 1);
        assert IssueRounds(iq, ex, n) == (iq', ex');
        OneIssued(iq, ex, n, k, iq', ex');
    }
  }

  /** issue: at most `width` instructions move from IQ_reg to the end of
      execute_list, each ready, in non-decreasing age order and no younger
      than any ready instruction left behind; IQ_reg and the issued
      instructions together are exactly the ticked IQ_reg; when fewer than
      `width` issue, nothing ready is left. */
  lemma IssueStageSelects(iqReg: seq<Instruction>, executeList: seq<Instruction>, width: nat)
    ensures var (iq', ex') := IssueStage(iqReg, executeList, width);
      Selected(TickAll(iqReg, IS), executeList, width, iq', ex')
  {
    var iq := TickAll(iqReg, IS);
    if iq == [] {
      assert executeList[|executeList|..] == [];
    } else {
      IssueRoundsSelect(iq, executeList, width);
    }
  }
}
