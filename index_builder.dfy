/**
 * The loops of `build_index`, each proved to compute its part of
 * IndexSpec.BuildIndex: the filtered walk, the per-file information with
 * the header sniffer, the grouping dictionary, and the pass over the
 * groups that chooses bases and collects pairs.
 */
module IndexBuilder {
  import opened Wrappers
  import opened HeaderFormats
  import opened HeaderSniffer
  import opened PathKeys
  import opened Ordering
  import opened IndexSpec

  /** `paths_by_id`: id to path. */
  function PathMap(ps: seq<FileEntry>): map<nat, seq<string>> {
    map i | 0 <= i < |ps| :: PathOf(ps[i])
  }

  /** `info_by_id`: id to file information. */
  function InfoMap(ps: seq<FileEntry>): map<nat, FileInfo> {
    map i | 0 <= i < |ps| :: MakeInfo(i, ps[i])
  }

  /** The walk of the scan root with hidden directories pruned and the name filter applied. */
  method CollectFiles(files: seq<FileEntry>, sub: seq<string>) returns (ps: seq<FileEntry>)
    ensures ps == Collect(files, sub)
  {
    ps := [];
    for i := 0 to |files|
      invariant ps == Collect(files[..i], sub)
    {
      assert files[..i + 1][..i] == files[..i];
      if Indexable(files[i], sub) {
        ps := ps + [files[i]];
      }
    }
    assert files[..|files|] == files;
  }

  /** One record per id, with the dimensions the sniffer finds in the file's bytes. */
  method ComputeInfos(ps: seq<FileEntry>) returns (info: map<nat, FileInfo>)
    ensures info == InfoMap(ps)
  {
    info := map[];
    for i := 0 to |ps|
      invariant info == map j | 0 <= j < i :: MakeInfo(j, ps[j])
    {
      var f := ps[i];
      var dims := GetImageDimensions(f.content);
      var width, height := None, None;
      if dims.Some? {
        width, height := Some(dims.value.width), Some(dims.value.height);
      }
      var fi := FileInfo(i, Join(PathOf(f)), f.name, f.sizeBytes, f.mtimeIso, width, height);
      assert fi == MakeInfo(i, f);
      InfoMapStep(ps, i, info);
      info := info[i := fi];
    }
  }

  lemma InfoMapStep(ps: seq<FileEntry>, i: nat, m: map<nat, FileInfo>)
    requires i < |ps| && m == map j | 0 <= j < i :: MakeInfo(j, ps[j])
    ensures m[i := MakeInfo(i, ps[i])] == map j | 0 <= j < i + 1 :: MakeInfo(j, ps[j])
  {
  }

  /**
   * `groups.setdefault((folder, key), []).append(i)` for every id in turn;
   * the keys of all ids are computed first.
   */
  method BucketFiles(ps: seq<FileEntry>) returns (bs: seq<Bucket>)
    ensures bs == Buckets(Keys(ps), |ps|)
  {
    var keys := Keys(ps);
    bs := [];
    for i := 0 to |keys|
      invariant bs == Buckets(keys, i)
    {
      bs := SetDefaultAppend(bs, keys[i], i);
    }
  }

  /** The first member that is a base candidate, else the first member. */
  method ChooseBase(ps: seq<FileEntry>, ids: seq<nat>, nameKey: string) returns (base: nat)
    requires |ids| > 0 && Below(ids, |ps|)
    ensures base == BaseOf(ps, ids, nameKey)
  {
    base := ids[0];
    var k := 0;
    while k < |ids|
      invariant k <= |ids|
      invariant FirstPlain(ps, ids[k..], nameKey) == FirstPlain(ps, ids, nameKey)
      invariant base == ids[0]
    {
      var stem := Stem(ps[ids[k]].name);
      if Lower(stem) == nameKey && DupSuffixPrefix(stem).None? {
        base := ids[k];
        break;
      }
      assert ids[k..][1..] == ids[k + 1..];
      k := k + 1;
    }
  }

  /** The base against every other member, subject to the aspect filter. */
  method PairGroup(ps: seq<FileEntry>, info: map<nat, FileInfo>, base: nat, ids: seq<nat>, gk: string)
    returns (pairs: seq<Pair>)
    requires info == InfoMap(ps) && base < |ps| && Below(ids, |ps|)
    ensures pairs == GroupPairs(Infos(ps), base, ids, gk)
  {
    var infos := Infos(ps);
    pairs := [];
    for k := 0 to |ids|
      invariant pairs == GroupPairs(infos, base, ids[..k], gk)
    {
      assert ids[..k + 1][..k] == ids[..k];
      var other := ids[k];
      if other == base {
        continue;
      }
      if Known(info[base]) {
        var otherInfo := info[other];
        if Known(otherInfo) {
          if !AspectClose(info[base], otherInfo) {
            continue;
          }
        } else {
          continue;
        }
      }
      pairs := pairs + [Pair(base, other, gk)];
    }
    assert ids[..|ids|] == ids;
  }

  lemma FlattenSnoc<T>(ss: seq<seq<T>>, j: nat)
    requires j < |ss|
    ensures Flatten(ss[..j + 1]) == Flatten(ss[..j]) + ss[j]
  {
    assert ss[..j + 1][..j] == ss[..j];
  }

  lemma StepsSnoc(steps: seq<(seq<Group>, seq<Pair>)>, j: nat)
    requires j < |steps|
    ensures AllGroups(steps[..j + 1]) == AllGroups(steps[..j]) + steps[j].0
    ensures AllPairs(steps[..j + 1]) == AllPairs(steps[..j]) + steps[j].1
  {
    var gs := seq(|steps|, i requires 0 <= i < |steps| => steps[i].0);
    var prs := seq(|steps|, i requires 0 <= i < |steps| => steps[i].1);
    assert seq(j + 1, i requires 0 <= i < j + 1 => steps[..j + 1][i].0) == gs[..j + 1];
    assert seq(j, i requires 0 <= i < j => steps[..j][i].0) == gs[..j];
    assert seq(j + 1, i requires 0 <= i < j + 1 => steps[..j + 1][i].1) == prs[..j + 1];
    assert seq(j, i requires 0 <= i < j => steps[..j][i].1) == prs[..j];
    FlattenSnoc(gs, j);
    FlattenSnoc(prs, j);
  }

  /** The pass over the groups in insertion order: each group of two or more, and its pairs. */
  method PairAll(ps: seq<FileEntry>, info: map<nat, FileInfo>, bs: seq<Bucket>)
    returns (grouped: seq<Group>, pairs: seq<Pair>)
    requires info == InfoMap(ps) && IdsBelow(bs, |ps|)
    ensures grouped == AllGroups(Steps(ps, Infos(ps), bs))
    ensures pairs == AllPairs(Steps(ps, Infos(ps), bs))
  {
    ghost var steps := Steps(ps, Infos(ps), bs);
    grouped, pairs := [], [];
    for j := 0 to |bs|
      invariant grouped == AllGroups(steps[..j])
      invariant pairs == AllPairs(steps[..j])
    {
      StepsSnoc(steps, j);
      var b := bs[j];
      assert Below(b.ids, |ps|);
      if |b.ids| < 2 {
        continue;
      }
      var ids := SortBy<nat>(b.ids, IdKeyOf(ps));
      SortByPermutes(b.ids, IdKeyOf(ps));
      assert Below(ids, |ps|) by {
        forall i | 0 <= i < |ids|
          ensures ids[i] < |ps|
        {
          assert ids[i] in multiset(b.ids);
        }
      }
      var gk := GroupKeyString(b.folder, b.nameKey);
      grouped := grouped + [Group(gk, ids)];
      var base := ChooseBase(ps, ids, b.nameKey);
      var groupPairs := PairGroup(ps, info, base, ids, gk);
      pairs := pairs + groupPairs;
    }
    assert steps[..|bs|] == steps;
  }

  /** The whole of `build_index` before the fields are overwritten. */
  method Build(files: seq<FileEntry>, sub: seq<string>)
    returns (ps: seq<FileEntry>, infoById: map<nat, FileInfo>, grouped: seq<Group>, candidates: seq<Pair>)
    ensures var idx := BuildIndex(files, sub);
      ps == idx.files && infoById == InfoMap(ps) && grouped == idx.groups && candidates == idx.pairs
  {
    var collected := CollectFiles(files, sub);
    ps := SortBy(collected, ByName);
    infoById := ComputeInfos(ps);
    var bs := BucketFiles(ps);
    BucketsBelow(Keys(ps));
    grouped, candidates := PairAll(ps, infoById, bs);
    grouped := SortBy(grouped, GroupOrder);
    candidates := SortBy(candidates, PairOrderOf(ps));
  }

  /** Both maps are keyed by exactly the ids, and every path is non-empty. */
  lemma MapsShareIds(ps: seq<FileEntry>)
    ensures PathMap(ps).Keys == InfoMap(ps).Keys
    ensures forall x: nat :: x in PathMap(ps) <==> x < |ps|
    ensures forall x :: x in PathMap(ps) ==> |PathMap(ps)[x]| >= 1
  {
    assert forall x :: x in PathMap(ps).Keys <==> x in InfoMap(ps).Keys;
  }
}
