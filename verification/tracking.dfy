/** The bookkeeping that ties each in-flight instruction to its ROB entry:
    the ROB tags that a buffer's instructions carry, and the tags of the
    ROB entries that are ready or not yet ready. */
module Tracking {
  import opened Records
  import opened Seqs
  import opened Stages

  /** The ROB tags carried by the instructions of `buf`, in order. */
  function Tags(buf: seq<Instruction>): (t: seq<nat>)
    ensures |t| == |buf| && forall k :: 0 <= k < |buf| ==> t[k] == buf[k].robTag
  {
    seq(|buf|, k requires 0 <= k < |buf| => buf[k].robTag)
  }

  /** The tags of `buf` as a bag. */
  function TagBag(buf: seq<Instruction>): multiset<nat>
  {
    multiset(Tags(buf))
  }

  lemma TagsAppend(a: seq<Instruction>, b: seq<Instruction>)
    ensures Tags(a + b) == Tags(a) + Tags(b)
    ensures TagBag(a + b) == TagBag(a) + TagBag(b)
  {
    assert Tags(a + b) == Tags(a) + Tags(b);
  }

  /** Cancelling a common part of two bags. */
  lemma BagCancel(a: multiset<nat>, b: multiset<nat>, c: multiset<nat>, d: multiset<nat>)
    requires a + b == c && c == b + d
    ensures a == d
  {
    forall y ensures a[y] == d[y] {
      assert (a + b)[y] == (b + d)[y];
    }
  }

  /** Removing one instruction removes its tag. */
  lemma TagsRemoveAt(b: seq<Instruction>, k: nat)
    requires k < |b|
    ensures TagBag(RemoveAt(b, k)) + multiset{b[k].robTag} == TagBag(b)
  {
    assert Tags(RemoveAt(b, k)) == RemoveAt(Tags(b), k);
    RemoveAtMultiset(Tags(b), k);
  }

  /** Rearranging a buffer rearranges its tags the same way. */
  lemma {:induction false} TagsPerm(a: seq<Instruction>, b: seq<Instruction>)
    requires multiset(a) == multiset(b)
    ensures TagBag(a) == TagBag(b)
    decreases |a|
  {
    if a == [] {
      assert |b| == |multiset(b)| == 0;
    } else {
      var x := a[0];
      assert x in multiset(b);
      var k :| 0 <= k < |b| && b[k] == x;
      assert RemoveAt(a, 0) == a[1..];
      RemoveAtMultiset(a, 0);
      RemoveAtMultiset(b, k);
      assert multiset(a[1..]) == multiset(RemoveAt(b, k)) by {
        forall y ensures multiset(a[1..])[y] == multiset(RemoveAt(b, k))[y] {
          assert (multiset(a[1..]) + multiset{x})[y] == (multiset(RemoveAt(b, k)) + multiset{x})[y];
        }
      }
      TagsPerm(a[1..], RemoveAt(b, k));
      TagsRemoveAt(a, 0);
      TagsRemoveAt(b, k);
    }
  }

  /** Two buffers holding, position by position, instructions with the same
      age and the same tag: what every per-instruction update between
      stages keeps. */
  predicate SameIds(a: seq<Instruction>, b: seq<Instruction>)
  {
    |a| == |b| && forall k :: 0 <= k < |a| ==> a[k].robTag == b[k].robTag && a[k].age == b[k].age
  }

  /** Every instruction of `buf` carries its own age as its ROB tag. */
  predicate AgeIsTag(buf: seq<Instruction>)
  {
    forall x :: x in buf ==> x.age == x.robTag
  }

  lemma SameIdsKeep(a: seq<Instruction>, b: seq<Instruction>)
    requires SameIds(a, b)
    ensures Tags(a) == Tags(b)
    ensures AgeIsTag(a) ==> AgeIsTag(b)
  {
    if AgeIsTag(a) {
      forall x | x in b ensures x.age == x.robTag {
        var k :| 0 <= k < |b| && b[k] == x;
        assert a[k] in a;
      }
    }
  }

  /** The ages of `buf` are `first`, `first + 1`, ... in order. */
  predicate AgesFrom(buf: seq<Instruction>, first: nat)
  {
    forall j :: 0 <= j < |buf| ==> buf[j].age == first + j
  }

  // ---------------------------------------------------------------- ROB tags

  /** The tags of the ROB entries whose ready flag is `ready`, head first. */
  function TagsWhere(rob: seq<RobEntry>, ready: bool): seq<nat>
  {
    if rob == [] then []
    else (if rob[0].ready == ready then [rob[0].tag] else []) + TagsWhere(rob[1..], ready)
  }

  lemma {:induction false} TagsWhereAppend(a: seq<RobEntry>, b: seq<RobEntry>, ready: bool)
    ensures TagsWhere(a + b, ready) == TagsWhere(a, ready) + TagsWhere(b, ready)
    decreases |a|
  {
    if a == [] {
      assert a + b == b;
    } else {
      assert (a + b)[1..] == a[1..] + b;
      TagsWhereAppend(a[1..], b, ready);
    }
  }

  /** A listed tag is the tag of an entry with that flag. */
  lemma {:induction false} TagsWhereMember(rob: seq<RobEntry>, ready: bool, t: nat)
    ensures t in TagsWhere(rob, ready) ==>
      exists k :: 0 <= k < |rob| && rob[k].tag == t && rob[k].ready == ready
    decreases |rob|
  {
    if rob != [] && t in TagsWhere(rob, ready) && !(rob[0].ready == ready && rob[0].tag == t) {
      TagsWhereMember(rob[1..], ready, t);
      var k :| 0 <= k < |rob[1..]| && rob[1..][k].tag == t && rob[1..][k].ready == ready;
      assert rob[k + 1] == rob[1..][k];
    }
  }

  /** Every entry's tag is listed under its own flag. */
  lemma {:induction false} TagsWhereHas(rob: seq<RobEntry>, ready: bool, j: nat)
    requires j < |rob| && rob[j].ready == ready
    ensures rob[j].tag in TagsWhere(rob, ready)
    decreases |rob|
  {
    if j > 0 {
      TagsWhereHas(rob[1..], ready, j - 1);
      assert rob[1..][j - 1] == rob[j];
    }
  }

  /** With ascending tags, each entry's tag is listed once under its own
      flag and not at all under the other. */
  lemma {:induction false} TagsWhereCount(rob: seq<RobEntry>, ready: bool, k: nat)
    requires TagsAscending(rob) && k < |rob|
    ensures multiset(TagsWhere(rob, ready))[rob[k].tag] == if rob[k].ready == ready then 1 else 0
    decreases |rob|
  {
    var t := rob[k].tag;
    TagsWhereMember(rob[1..], ready, t);
    if k == 0 {
      forall j | 0 <= j < |rob[1..]| ensures rob[1..][j].tag != t {
        assert rob[1..][j] == rob[j + 1];
      }
    } else {
      TagsWhereCount(rob[1..], ready, k - 1);
      assert rob[1..][k - 1] == rob[k];
    }
  }

  /** With ascending tags, no tag is listed twice. */
  lemma TagsWhereUnique(rob: seq<RobEntry>, ready: bool, t: nat)
    requires TagsAscending(rob)
    ensures multiset(TagsWhere(rob, ready))[t] <= 1
  {
    TagsWhereMember(rob, ready, t);
    if t in TagsWhere(rob, ready) {
      var k :| 0 <= k < |rob| && rob[k].tag == t && rob[k].ready == ready;
      TagsWhereCount(rob, ready, k);
    }
  }

  /** Entries that all carry the flag `ready` list all their tags, in
      order, under that flag and none under the other. */
  lemma {:induction false} TagsWhereAll(e: seq<RobEntry>, ready: bool)
    requires forall k :: 0 <= k < |e| ==> e[k].ready == ready
    ensures TagsWhere(e, !ready) == []
    ensures TagsWhere(e, ready) == seq(|e|, k requires 0 <= k < |e| => e[k].tag)
    decreases |e|
  {
    if e != [] {
      TagsWhereAll(e[1..], ready);
    }
  }

  /** Readying a waiting entry moves its tag from one list to the other. */
  lemma {:induction false} TagsWhereMark(rob: seq<RobEntry>, j: nat)
    requires j < |rob| && !rob[j].ready
    ensures var r := rob[j := rob[j].(ready := true)];
      multiset(TagsWhere(r, false)) + multiset{rob[j].tag} == multiset(TagsWhere(rob, false)) &&
      multiset(TagsWhere(r, true)) == multiset(TagsWhere(rob, true)) + multiset{rob[j].tag}
    decreases |rob|
  {
    var r := rob[j := rob[j].(ready := true)];
    var t := rob[j].tag;
    if j == 0 {
      assert r[1..] == rob[1..];
      assert TagsWhere(r, true) == [t] + TagsWhere(rob[1..], true);
      assert TagsWhere(rob, true) == [] + TagsWhere(rob[1..], true);
      assert TagsWhere(rob, false) == [t] + TagsWhere(r, false);
      BagCons(t, TagsWhere(r, false));
      BagCons(t, TagsWhere(rob[1..], true));
    } else {
      assert r[1..] == rob[1..][j - 1 := rob[j].(ready := true)];
      TagsWhereMark(rob[1..], j - 1);
      var h := if rob[0].ready then [rob[0].tag] else [];
      var h' := if rob[0].ready then [] else [rob[0].tag];
      assert TagsWhere(r, true) == h + TagsWhere(r[1..], true);
      assert TagsWhere(rob, true) == h + TagsWhere(rob[1..], true);
      assert TagsWhere(r, false) == h' + TagsWhere(r[1..], false);
      assert TagsWhere(rob, false) == h' + TagsWhere(rob[1..], false);
      BagPrefix(h, TagsWhere(r[1..], true), TagsWhere(rob[1..], true), multiset{t});
      BagPrefix(h', TagsWhere(rob[1..], false), TagsWhere(r[1..], false), multiset{t});
    }
  }

  lemma BagCons(t: nat, a: seq<nat>)
    ensures multiset([t] + a) == multiset(a) + multiset{t}
  {
    assert multiset([t] + a) == multiset([t]) + multiset(a);
  }

  /** Putting the same values in front of two lists keeps how their bags
      differ. */
  lemma BagPrefix(h: seq<nat>, a: seq<nat>, b: seq<nat>, m: multiset<nat>)
    requires multiset(a) == multiset(b) + m
    ensures multiset(h + a) == multiset(h + b) + m
  {
    forall y ensures multiset(h + a)[y] == (multiset(h + b) + m)[y] {
      assert multiset(h + a) == multiset(h) + multiset(a);
      assert multiset(h + b) == multiset(h) + multiset(b);
    }
  }

  /** With ascending tags, marking a tag readies the one entry carrying it. */
  lemma MarkReadyAt(rob: seq<RobEntry>, j: nat)
    requires TagsAscending(rob) && j < |rob|
    ensures MarkReady(rob, rob[j].tag) == rob[j := rob[j].(ready := true)]
    ensures TagsAscending(MarkReady(rob, rob[j].tag))
  {
    RobIndexOfFirst(rob, rob[j].tag);
    assert RobIndexOf(rob, rob[j].tag) == Some(j);
  }

  /** Marking a tag that is waiting moves it from one list to the other. */
  lemma MarkReadyMoves(rob: seq<RobEntry>, t: nat)
    requires TagsAscending(rob) && t in multiset(TagsWhere(rob, false))
    ensures var r := MarkReady(rob, t);
      TagsAscending(r) &&
      multiset(TagsWhere(r, false)) + multiset{t} == multiset(TagsWhere(rob, false)) &&
      multiset(TagsWhere(r, true)) == multiset(TagsWhere(rob, true)) + multiset{t}
  {
    TagsWhereMember(rob, false, t);
    var j :| 0 <= j < |rob| && rob[j].tag == t && !rob[j].ready;
    MarkReadyAt(rob, j);
    TagsWhereMark(rob, j);
  }

  /** write_back's ROB update moves the tags of the drained instructions
      from the waiting list to the ready list, each tag once. */
  lemma {:induction false} MarkAllReadyMoves(rob: seq<RobEntry>, wb: seq<Instruction>, rest: multiset<nat>)
    requires TagsAscending(rob)
    requires rest + TagBag(wb) == multiset(TagsWhere(rob, false))
    ensures var r := MarkAllReady(rob, wb);
      rest == multiset(TagsWhere(r, false)) &&
      multiset(TagsWhere(r, true)) == multiset(TagsWhere(rob, true)) + TagBag(wb)
    decreases |wb|
  {
    if wb != [] {
      var t := wb[0].robTag;
      assert RemoveAt(wb, 0) == wb[1..];
      TagsRemoveAt(wb, 0);
      MarkReadyMoves(rob, t);
      var rob1 := MarkReady(rob, t);
      BagShift(rest, TagBag(wb), TagBag(wb[1..]), t,
               multiset(TagsWhere(rob, false)), multiset(TagsWhere(rob1, false)));
      MarkAllReadyMoves(rob1, wb[1..], rest);
      BagJoin(multiset(TagsWhere(MarkAllReady(rob, wb), true)), multiset(TagsWhere(rob1, true)),
              multiset(TagsWhere(rob, true)), TagBag(wb), TagBag(wb[1..]), t);
    }
  }

  /** Moving one `t` from one side of a bag equation to the other. */
  lemma BagShift(a: multiset<nat>, b: multiset<nat>, b': multiset<nat>, t: nat, c: multiset<nat>, c': multiset<nat>)
    requires a + b == c && b == b' + multiset{t} && c == c' + multiset{t}
    ensures a + b' == c'
  {
    forall y ensures (a + b')[y] == c'[y] {
      assert (a + b)[y] == c[y];
    }
  }

  /** Adding `t` and then the rest is adding all of it. */
  lemma BagJoin(r: multiset<nat>, r1: multiset<nat>, r0: multiset<nat>, w: multiset<nat>, w1: multiset<nat>, t: nat)
    requires r == r1 + w1 && r1 == r0 + multiset{t} && w == w1 + multiset{t}
    ensures r == r0 + w
  {
    forall y ensures r[y] == (r0 + w)[y] {
      assert r[y] == r1[y] + w1[y];
    }
  }

  /** Two equal values at two positions make a count of at least two. */
  lemma TwoPositions(s: seq<nat>, i: nat, j: nat)
    requires i < j < |s|
    ensures s[i] == s[j] ==> multiset(s)[s[i]] >= 2
  {
    assert s == s[..j] + s[j..];
    assert s[i] == s[..j][i];
    assert s[j] == s[j..][0];
  }
}
