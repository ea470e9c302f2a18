/**
 * The in-memory state of the review server: the index built from a
 * directory listing, the stable cursor over candidate pairs, the legacy
 * cursor over groups, and the bookkeeping of a deletion.
 */
module DuplicateStore {
  import opened Wrappers
  import opened PathKeys
  import opened Ordering
  import opened IndexSpec
  import opened IndexFacts
  import opened IndexBuilder
  import opened Paging
  import opened Trash

  /** One pair on a page: its stable id, its group key and both files' records. */
  datatype PageEntry = PageEntry(pairId: nat, groupKey: string, left: FileInfo, right: FileInfo)

  datatype Page = Page(pairs: seq<PageEntry>, nextCursor: nat, done: bool, totalCandidatePairs: nat)

  /** What the legacy cursor shows: nothing left, or the first two members of the current group. */
  datatype Current =
    | Finished
    | At(groupKey: string, groupIndex: nat, groupCount: nat, left: FileInfo, right: FileInfo)

  datatype DeleteOutcome =
    | Deleted(id: nat, trashedTo: Option<string>)
    | UnknownId(requested: int)
    | MoveFailed(id: nat)

  /** Every group of a freshly built index has distinct members, all of them indexed files. */
  lemma BuiltGroupsWellFormed(files: seq<FileEntry>, sub: seq<string>)
    ensures var idx := BuildIndex(files, sub);
      forall j :: 0 <= j < |idx.groups| ==>
        NoDup(idx.groups[j].ids) && forall x :: x in idx.groups[j].ids ==> x < |idx.files|
  {
    var idx := BuildIndex(files, sub);
    forall j | 0 <= j < |idx.groups|
      ensures NoDup(idx.groups[j].ids) && forall x :: x in idx.groups[j].ids ==> x < |idx.files|
    {
      GroupsSound(files, sub, idx.groups[j]);
    }
  }

  /** The maps and groups of a freshly built index satisfy what `DuplicateState.Valid` requires. */
  lemma BuiltStateValid(files: seq<FileEntry>, sub: seq<string>)
    ensures var idx := BuildIndex(files, sub);
      var paths := PathMap(idx.files);
      && paths.Keys == InfoMap(idx.files).Keys
      && (forall id :: id in paths ==> |paths[id]| >= 1)
      && forall j :: 0 <= j < |idx.groups| ==>
           NoDup(idx.groups[j].ids) && forall x :: x in idx.groups[j].ids ==> x in paths
  {
    var idx := BuildIndex(files, sub);
    BuiltGroupsWellFormed(files, sub);
    MapsShareIds(idx.files);
  }

  class DuplicateState {
    const permanentDelete: bool
    const subfolder: seq<string>

    var paths: map<nat, seq<string>>
    var info: map<nat, FileInfo>
    var pairs: seq<Pair>
    var groups: seq<Group>
    var groupIdx: nat

    /** Every file has a non-empty path and its record, and the groups name distinct indexed files. */
    ghost predicate Valid()
      reads this
    {
      && paths.Keys == info.Keys
      && (forall id :: id in paths ==> |paths[id]| >= 1)
      && forall j :: 0 <= j < |groups| ==>
           NoDup(groups[j].ids) && forall x :: x in groups[j].ids ==> x in paths
    }

    constructor(permanentDelete: bool, subfolder: seq<string>)
      ensures Valid()
      ensures this.permanentDelete == permanentDelete && this.subfolder == subfolder
      ensures paths == map[] && info == map[] && pairs == [] && groups == [] && groupIdx == 0
    {
      this.permanentDelete := permanentDelete;
      this.subfolder := subfolder;
      paths, info, pairs, groups, groupIdx := map[], map[], [], [], 0;
    }

    /** `build_index`: replaces the whole state by the index of the listing. */
    method BuildIndex(files: seq<FileEntry>)
      modifies this
      ensures var idx := IndexSpec.BuildIndex(files, subfolder);
        && paths == PathMap(idx.files) && info == InfoMap(idx.files)
        && pairs == idx.pairs && groups == idx.groups && groupIdx == 0
      ensures Valid()
    {
      var ps, infoById, grouped, candidates := Build(files, subfolder);
      paths, info, pairs, groups, groupIdx := PathMap(ps), infoById, candidates, grouped, 0;
      BuiltStateValid(files, subfolder);
    }

    /** The page entry of pair i. */
    function EntryOf(i: nat): PageEntry
      reads this
      requires i < |pairs| && Live(paths, pairs[i]) && paths.Keys == info.Keys
    {
      PageEntry(i, pairs[i].groupKey, info[pairs[i].left], info[pairs[i].right])
    }

    /**
     * `pairs_page`: from the clamped cursor, the next live pairs up to the
     * clamped limit, stopping right after the page fills or at the end.
     */
    method PairsPage(cursor: int, limit: int) returns (page: Page)
      requires Valid()
      ensures var lim, cur := ClampLimit(limit), ClampCursor(cursor);
        var ids := LiveIds(pairs, paths, cur, page.nextCursor);
        && cur <= page.nextCursor
        && (cur < |pairs| ==> page.nextCursor <= |pairs|)
        && (cur >= |pairs| ==> page.nextCursor == cur)
        && |page.pairs| == |ids| <= lim
        && (forall k :: 0 <= k < |ids| ==> page.pairs[k] == EntryOf(ids[k]))
        && (page.done <==> page.nextCursor >= |pairs|)
        && (!page.done ==> |page.pairs| == lim)
        && (forall n :: cur <= n < page.nextCursor ==> |LiveIds(pairs, paths, cur, n)| < lim)
        && page.totalCandidatePairs == |pairs|
    {
      var lim := ClampLimit(limit);
      var cur := ClampCursor(cursor);
      var out: seq<PageEntry> := [];
      var i := cur;
      while i < |pairs| && |out| < lim
        invariant cur <= i && (cur < |pairs| ==> i <= |pairs|) && (cur >= |pairs| ==> i == cur)
        invariant |out| == |LiveIds(pairs, paths, cur, i)| <= lim
        invariant forall k :: 0 <= k < |out| ==> out[k] == EntryOf(LiveIds(pairs, paths, cur, i)[k])
        invariant forall n :: cur <= n < i ==> |LiveIds(pairs, paths, cur, n)| < lim
        decreases |pairs| - i
      {
        var p := pairs[i];
        var pairId := i;
        i := i + 1;
        if p.left !in paths || p.right !in paths {
          continue;
        }
        out := out + [PageEntry(pairId, p.groupKey, info[p.left], info[p.right])];
      }
      page := Page(out, i, i >= |pairs|, |pairs|);
    }

    /** `_advance_to_valid_group_unlocked`: skip groups left with fewer than two members. */
    method AdvanceToValidGroup()
      modifies this`groupIdx
      ensures groupIdx == NextValidGroup(groups, old(groupIdx))
    {
      while groupIdx < |groups| && |groups[groupIdx].ids| < 2
        invariant NextValidGroup(groups, groupIdx) == NextValidGroup(groups, old(groupIdx))
        decreases |groups| - groupIdx
      {
        groupIdx := groupIdx + 1;
      }
    }

    /** What the legacy cursor shows once it rests on a group of two or more, or past the end. */
    function CurrentView(): Current
      reads this
      requires Valid() && (groupIdx < |groups| ==> |groups[groupIdx].ids| >= 2)
    {
      if groupIdx >= |groups| then Finished
      else
        var g := groups[groupIdx];
        At(g.key, groupIdx + 1, |groups|, info[g.ids[0]], info[g.ids[1]])
    }

    /** `current_pair`: advance to a valid group, then show its first two members. */
    method CurrentPair() returns (r: Current)
      requires Valid()
      modifies this`groupIdx
      ensures groupIdx == NextValidGroup(groups, old(groupIdx))
      ensures Valid() && r == CurrentView()
    {
      AdvanceToValidGroup();
      if groupIdx >= |groups| {
        return Finished;
      }
      var g := groups[groupIdx];
      var left, right := g.ids[0], g.ids[1];
      r := At(g.key, groupIdx + 1, |groups|, info[left], info[right]);
    }

    /** `skip_group`: step past the current group, then show the next valid one. */
    method SkipGroup() returns (r: Current)
      requires Valid()
      modifies this`groupIdx
      ensures groupIdx == NextValidGroup(groups, old(groupIdx) + 1)
      ensures Valid() && r == CurrentView()
    {
      groupIdx := groupIdx + 1;
      r := CurrentPair();
    }

    /**
     * `delete_id`: an unknown id changes nothing; otherwise the id leaves
     * every group, and, when moving or removing the file succeeds, the
     * index. The pair list is kept, so later pages skip the pair. The file
     * system step is the parameter `moved`, and `existing` is the set of
     * paths already present, which decides the name in the trash.
     */
    method DeleteId(fid: int, existing: set<string>, moved: bool) returns (r: DeleteOutcome)
      requires Valid()
      modifies this`groups, this`paths, this`info
      ensures Valid()
      ensures pairs == old(pairs) && groupIdx == old(groupIdx)
      ensures fid < 0 || fid as nat !in old(paths) ==>
        r == UnknownId(fid) && paths == old(paths) && info == old(info) && groups == old(groups)
      ensures fid >= 0 && fid as nat in old(paths) ==>
        && groups == seq(|old(groups)|, j requires 0 <= j < |old(groups)| => WithoutId(old(groups)[j], fid as nat))
        && (forall j :: 0 <= j < |groups| ==> fid as nat !in groups[j].ids)
        && (moved ==> paths == old(paths) - {fid as nat} && info == old(info) - {fid as nat})
        && (!moved ==> r == MoveFailed(fid as nat) && paths == old(paths) && info == old(info))
        && (moved && permanentDelete ==> r == Deleted(fid as nat, None))
        && (moved && !permanentDelete ==>
              && r.Deleted? && r.id == fid as nat && r.trashedTo.Some?
              && |old(paths)[fid as nat]| >= 1
              && IsTrashDest(TRASH_DIR, old(paths)[fid as nat], existing, r.trashedTo.value))
    {
      if fid < 0 || fid as nat !in paths {
        return UnknownId(fid);
      }
      var id := fid as nat;
      var rel := paths[id];
      var idx := 0;
      while idx < |groups|
        invariant idx <= |groups| == |old(groups)|
        invariant paths == old(paths) && info == old(info)
        invariant forall j :: 0 <= j < idx ==> groups[j] == WithoutId(old(groups)[j], id)
        invariant forall j :: idx <= j < |groups| ==> groups[j] == old(groups)[j]
      {
        var g := groups[idx];
        if id in g.ids {
          groups := groups[idx := Group(g.key, RemoveFirst(g.ids, id))];
        }
        idx := idx + 1;
      }
      assert groups == seq(|old(groups)|, j requires 0 <= j < |old(groups)| => WithoutId(old(groups)[j], id));
      forall j | 0 <= j < |groups|
        ensures NoDup(groups[j].ids) && id !in groups[j].ids
        ensures forall x :: x in groups[j].ids ==> x in old(paths) && x != id
      {
        var g := old(groups)[j];
        if id in g.ids {
          RemoveFirstFacts(g.ids, id);
          forall x | x in groups[j].ids
            ensures x in g.ids
          {
            assert x in multiset(groups[j].ids);
          }
        }
      }
      if !moved {
        return MoveFailed(id);
      }
      var trashedTo := None;
      if !permanentDelete {
        assert |rel| >= 1;
        var dest := TrashPath(TRASH_DIR, rel, existing);
        trashedTo := Some(dest);
      }
      paths := paths - {id};
      info := info - {id};
      r := Deleted(id, trashedTo);
    }
  }
}
