/**
 * The specification of the two ways of walking the results: the stable
 * cursor over the candidate pairs, which skips pairs whose files are gone,
 * and the legacy cursor over the groups, which skips groups left with
 * fewer than two members. Also the removal of a deleted id from the groups.
 */
module Paging {
  import opened IndexSpec

  const MAX_LIMIT: nat := 200

  /** `max(1, min(limit, 200))`. */
  function ClampLimit(limit: int): (r: nat)
    ensures 1 <= r <= MAX_LIMIT
    ensures limit < 1 ==> r == 1
    ensures limit > MAX_LIMIT ==> r == MAX_LIMIT
    ensures 1 <= limit <= MAX_LIMIT ==> r == limit
  {
    if limit < 1 then 1 else if limit > MAX_LIMIT then MAX_LIMIT else limit
  }

  /** `max(0, cursor)`. */
  function ClampCursor(cursor: int): (r: nat)
    ensures cursor >= 0 ==> r == cursor
    ensures cursor < 0 ==> r == 0
  {
    if cursor < 0 then 0 else cursor
  }

  /** Both files of the pair are still indexed. */
  predicate Live(paths: map<nat, seq<string>>, p: Pair) {
    p.left in paths && p.right in paths
  }

  /** The indices in [lo, hi) of pairs whose files are both still indexed, ascending. */
  function LiveIds(pairs: seq<Pair>, paths: map<nat, seq<string>>, lo: nat, hi: nat): (r: seq<nat>)
    ensures |r| <= if hi <= lo then 0 else hi - lo
    ensures forall k :: 0 <= k < |r| ==> lo <= r[k] < hi && r[k] < |pairs| && Live(paths, pairs[r[k]])
    ensures forall k, k' :: 0 <= k < k' < |r| ==> r[k] < r[k']
  {
    if hi <= lo then []
    else
      var rest := LiveIds(pairs, paths, lo, hi - 1);
      if hi - 1 < |pairs| && Live(paths, pairs[hi - 1]) then rest + [hi - 1] else rest
  }

  /** No live index in the range is missed. */
  lemma {:induction false} LiveIdsComplete(pairs: seq<Pair>, paths: map<nat, seq<string>>, lo: nat, hi: nat)
    ensures forall x: nat :: x in LiveIds(pairs, paths, lo, hi) <==> lo <= x < hi && x < |pairs| && Live(paths, pairs[x])
  {
    if hi > lo {
      LiveIdsComplete(pairs, paths, lo, hi - 1);
    }
  }

  /** Once an id is gone, the pairs that mention it are skipped and all other live pairs stay. */
  lemma DeletedIdSkipped(pairs: seq<Pair>, paths: map<nat, seq<string>>, fid: nat, lo: nat, hi: nat)
    ensures forall x: nat :: x in LiveIds(pairs, paths - {fid}, lo, hi) <==>
      x in LiveIds(pairs, paths, lo, hi) && pairs[x].left != fid && pairs[x].right != fid
  {
    LiveIdsComplete(pairs, paths, lo, hi);
    LiveIdsComplete(pairs, paths - {fid}, lo, hi);
  }

  /** Where `_advance_to_valid_group_unlocked` stops: the first group from k with two or more members, or the end. */
  function NextValidGroup(groups: seq<Group>, k: nat): (r: nat)
    decreases |groups| - k
    ensures k <= r && (k <= |groups| ==> r <= |groups|)
    ensures r < |groups| ==> |groups[r].ids| >= 2
    ensures forall j :: k <= j < r ==> j < |groups| && |groups[j].ids| < 2
  {
    if k < |groups| && |groups[k].ids| < 2 then NextValidGroup(groups, k + 1) else k
  }

  /** The position of the first occurrence of x. */
  function FirstIndex(ids: seq<nat>, x: nat): (i: nat)
    requires x in ids
    ensures i < |ids| && ids[i] == x && forall j :: 0 <= j < i ==> ids[j] != x
  {
    if ids[0] == x then 0
    else
      assert x in ids[1..];
      1 + FirstIndex(ids[1..], x)
  }

  /** `ids.remove(x)`: drop the first occurrence. */
  function RemoveFirst(ids: seq<nat>, x: nat): seq<nat>
    requires x in ids
  {
    var i := FirstIndex(ids, x);
    ids[..i] + ids[i + 1..]
  }

  predicate NoDup(ids: seq<nat>) {
    forall i, j :: 0 <= i < j < |ids| ==> ids[i] != ids[j]
  }

  /** On a list without repeats, removal takes out exactly x and keeps the order of the rest. */
  lemma RemoveFirstFacts(ids: seq<nat>, x: nat)
    requires x in ids
    ensures multiset(RemoveFirst(ids, x)) == multiset(ids) - multiset{x}
    ensures NoDup(ids) ==> NoDup(RemoveFirst(ids, x)) && x !in RemoveFirst(ids, x)
  {
    var i := FirstIndex(ids, x);
    assert ids == ids[..i] + [x] + ids[i + 1..];
    assert multiset(ids) == multiset(ids[..i]) + multiset{x} + multiset(ids[i + 1..]);
    if NoDup(ids) {
      NoDupAfterCut(ids, i);
    }
  }

  lemma NoDupAfterCut(ids: seq<nat>, i: nat)
    requires i < |ids| && NoDup(ids)
    ensures NoDup(ids[..i] + ids[i + 1..]) && ids[i] !in ids[..i] + ids[i + 1..]
  {
    var r := ids[..i] + ids[i + 1..];
    assert forall k :: 0 <= k < |r| ==> r[k] == if k < i then ids[k] else ids[k + 1];
  }

  /** A group after `delete_id` removed x from it. */
  function WithoutId(g: Group, x: nat): Group {
    if x in g.ids then Group(g.key, RemoveFirst(g.ids, x)) else g
  }
}
