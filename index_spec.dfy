/**
 * What building the index computes, as functions of the directory listing:
 * which files are indexed, the dense ids in name order, the per-file
 * information, the duplicate groups keyed by (folder key, name key), the
 * candidate pairs with their base choice and aspect filter, and the final
 * orders of groups and pairs.
 */
module IndexSpec {
  import opened Wrappers
  import opened Bytes
  import opened HeaderFormats
  import opened PathKeys
  import opened Ordering

  const IMAGE_EXTS: set<string> := {".jpg", ".jpeg", ".png", ".gif", ".webp", ".bmp", ".tif", ".tiff"}
  const TRASH_DIR: string := ".image-dup-trash"

  /**
   * A file as the directory walk reports it: its directory segments below
   * the root, its name, the size and the formatted modification time that
   * `stat` gives, and its bytes.
   */
  datatype FileEntry = FileEntry(dir: seq<string>, name: string, sizeBytes: nat, mtimeIso: string, content: seq<byte>)

  /** The record served for a file; a missing dimension is None. */
  datatype FileInfo = FileInfo(
    id: nat, relpath: string, name: string, sizeBytes: nat, mtimeIso: string,
    width: Option<nat>, height: Option<nat>)

  /** A duplicate group: its display key and its member ids. */
  datatype Group = Group(key: string, ids: seq<nat>)

  /** A candidate pair: the base, the other member, and the group's key. */
  datatype Pair = Pair(left: nat, right: nat, groupKey: string)

  function PathOf(f: FileEntry): seq<string> {
    f.dir + [f.name]
  }

  // ---------------------------------------------------------------- which files are indexed

  predicate StartsWithDot(s: string) {
    |s| > 0 && s[0] == '.'
  }

  /** A directory the walk descends into. */
  predicate VisibleDir(d: string) {
    !StartsWithDot(d) && d != TRASH_DIR
  }

  predicate IsImageName(name: string) {
    Lower(Suffix(name)) in IMAGE_EXTS
  }

  /**
   * Whether walking `root / sub` (the whole root when sub is empty) reaches
   * this file and keeps it: every directory below the scan root is visible,
   * the name is not hidden, and its lower-cased suffix is an image extension.
   */
  predicate Indexable(f: FileEntry, sub: seq<string>) {
    && |f.dir| >= |sub| && f.dir[..|sub|] == sub
    && (forall k :: |sub| <= k < |f.dir| ==> VisibleDir(f.dir[k]))
    && !StartsWithDot(f.name)
    && IsImageName(f.name)
  }

  /** The indexed files in walk order. */
  function Collect(files: seq<FileEntry>, sub: seq<string>): seq<FileEntry> {
    if |files| == 0 then []
    else
      var last := files[|files| - 1];
      Collect(files[..|files| - 1], sub) + (if Indexable(last, sub) then [last] else [])
  }

  /** The sort key of a path: its lower-cased name. */
  function ByName(f: FileEntry): seq<string> {
    [Lower(f.name)]
  }

  /** The indexed files in id order. */
  function IndexedFiles(files: seq<FileEntry>, sub: seq<string>): seq<FileEntry> {
    SortBy(Collect(files, sub), ByName)
  }

  // ---------------------------------------------------------------- per-file information

  function MakeInfo(id: nat, f: FileEntry): FileInfo {
    var d := Dimensions(f.content);
    FileInfo(id, Join(PathOf(f)), f.name, f.sizeBytes, f.mtimeIso,
             if d.Some? then Some(d.value.width) else None,
             if d.Some? then Some(d.value.height) else None)
  }

  function Infos(ps: seq<FileEntry>): seq<FileInfo> {
    seq(|ps|, i requires 0 <= i < |ps| => MakeInfo(i, ps[i]))
  }

  // ---------------------------------------------------------------- buckets

  /** The grouping key of a file: (folder key, name key). */
  function KeyOf(f: FileEntry): (string, string) {
    (FolderKey(PathOf(f)), NormalizeKey(f.name))
  }

  /** A bucket of the grouping dictionary: its key and the ids appended to it. */
  datatype Bucket = Bucket(folder: string, nameKey: string, ids: seq<nat>)

  function BKey(b: Bucket): (string, string) {
    (b.folder, b.nameKey)
  }

  /** The dictionary lookup of a key among the buckets. */
  function FindBucket(bs: seq<Bucket>, k: (string, string)): (r: Option<nat>)
    ensures r.Some? ==> r.value < |bs| && BKey(bs[r.value]) == k
    ensures r.None? ==> forall j :: 0 <= j < |bs| ==> BKey(bs[j]) != k
  {
    if |bs| == 0 then None
    else if BKey(bs[|bs| - 1]) == k then Some(|bs| - 1)
    else FindBucket(bs[..|bs| - 1], k)
  }

  /** `groups.setdefault(k, []).append(id)`; a new key goes last, in insertion order. */
  function SetDefaultAppend(bs: seq<Bucket>, k: (string, string), id: nat): seq<Bucket> {
    match FindBucket(bs, k)
    case Some(j) => bs[j := Bucket(k.0, k.1, bs[j].ids + [id])]
    case None => bs + [Bucket(k.0, k.1, [id])]
  }

  /** The grouping key of every id. */
  function Keys(ps: seq<FileEntry>): seq<(string, string)> {
    seq(|ps|, i requires 0 <= i < |ps| => KeyOf(ps[i]))
  }

  /** The grouping dictionary after the first n ids. */
  function Buckets(keys: seq<(string, string)>, n: nat): seq<Bucket>
    requires n <= |keys|
  {
    if n == 0 then [] else SetDefaultAppend(Buckets(keys, n - 1), keys[n - 1], n - 1)
  }

  /** The ids below n whose key is k, ascending: what a bucket should hold. */
  function IdsWithKey(keys: seq<(string, string)>, k: (string, string), n: nat): seq<nat>
    requires n <= |keys|
  {
    if n == 0 then [] else IdsWithKey(keys, k, n - 1) + (if keys[n - 1] == k then [n - 1] else [])
  }

  /** Every id in the list is below n. */
  predicate Below(ids: seq<nat>, n: nat) {
    forall i :: 0 <= i < |ids| ==> ids[i] < n
  }

  predicate StrictlyAscending(s: seq<nat>) {
    forall i, j :: 0 <= i < j < |s| ==> s[i] < s[j]
  }

  lemma {:induction false} IdsWithKeyFacts(keys: seq<(string, string)>, k: (string, string), n: nat)
    requires n <= |keys|
    ensures forall x: nat :: x in IdsWithKey(keys, k, n) <==> x < n && keys[x] == k
    ensures Below(IdsWithKey(keys, k, n), n)
    ensures StrictlyAscending(IdsWithKey(keys, k, n))
  {
    if n > 0 {
      IdsWithKeyFacts(keys, k, n - 1);
    }
  }

  /** What the grouping dictionary holds after n ids. */
  predicate BucketsExact(keys: seq<(string, string)>, n: nat, bs: seq<Bucket>)
    requires n <= |keys|
  {
    && (forall j :: 0 <= j < |bs| ==> bs[j].ids == IdsWithKey(keys, BKey(bs[j]), n))
    && DistinctKeys(bs)
    && (forall x :: 0 <= x < n ==> FindBucket(bs, keys[x]).Some?)
  }

  predicate DistinctKeys(bs: seq<Bucket>) {
    forall i, j :: 0 <= i < j < |bs| ==> BKey(bs[i]) != BKey(bs[j])
  }

  lemma {:induction false} NoIdsWithKey(keys: seq<(string, string)>, k: (string, string), n: nat)
    requires n <= |keys|
    requires forall x :: 0 <= x < n ==> keys[x] != k
    ensures IdsWithKey(keys, k, n) == []
  {
    if n > 0 {
      NoIdsWithKey(keys, k, n - 1);
    }
  }

  /** How one `setdefault(...).append` changes the buckets. */
  lemma SetDefaultAppendEffect(bs: seq<Bucket>, k: (string, string), id: nat)
    requires DistinctKeys(bs)
    ensures var bs' := SetDefaultAppend(bs, k, id);
      && |bs| <= |bs'| <= |bs| + 1
      && (forall j :: 0 <= j < |bs| ==> BKey(bs'[j]) == BKey(bs[j]))
      && (forall j :: 0 <= j < |bs| ==> bs'[j].ids == if BKey(bs[j]) == k then bs[j].ids + [id] else bs[j].ids)
      && (|bs'| == |bs| + 1 ==> FindBucket(bs, k).None? && BKey(bs'[|bs|]) == k && bs'[|bs|].ids == [id])
      && (|bs'| == |bs| ==> FindBucket(bs, k).Some?)
      && DistinctKeys(bs')
  {
    match FindBucket(bs, k)
    case Some(j0) =>
      var bs' := SetDefaultAppend(bs, k, id);
      assert |bs'| == |bs|;
      forall j | 0 <= j < |bs|
        ensures bs'[j].ids == if BKey(bs[j]) == k then bs[j].ids + [id] else bs[j].ids
      {
      }
    case None =>
  }

  lemma BucketsStepIds(keys: seq<(string, string)>, n: nat)
    requires 0 < n <= |keys| && BucketsExact(keys, n - 1, Buckets(keys, n - 1))
    ensures forall j :: 0 <= j < |Buckets(keys, n)| ==> Buckets(keys, n)[j].ids == IdsWithKey(keys, BKey(Buckets(keys, n)[j]), n)
  {
    var bs, k := Buckets(keys, n - 1), keys[n - 1];
    SetDefaultAppendEffect(bs, k, n - 1);
    var bs' := Buckets(keys, n);
    assert bs' == SetDefaultAppend(bs, k, n - 1);
    if |bs'| == |bs| + 1 {
      forall x | 0 <= x < n - 1
        ensures keys[x] != k
      {
        assert FindBucket(bs, keys[x]).Some?;
      }
    }
    forall j | 0 <= j < |bs'|
      ensures bs'[j].ids == IdsWithKey(keys, BKey(bs'[j]), n)
    {
      StepIdsAt(keys, n, bs, bs', j);
    }
  }

  /** One bucket after the n-th `setdefault(...).append`, stated without unfolding the dictionary. */
  lemma StepIdsAt(keys: seq<(string, string)>, n: nat, bs: seq<Bucket>, bs': seq<Bucket>, j: nat)
    requires 0 < n <= |keys| && j < |bs'| && |bs| <= |bs'| <= |bs| + 1
    requires forall i :: 0 <= i < |bs| ==> bs[i].ids == IdsWithKey(keys, BKey(bs[i]), n - 1)
    requires forall i :: 0 <= i < |bs| ==> BKey(bs'[i]) == BKey(bs[i])
    requires forall i :: 0 <= i < |bs| ==> bs'[i].ids == if BKey(bs[i]) == keys[n - 1] then bs[i].ids + [n - 1] else bs[i].ids
    requires |bs'| == |bs| + 1 ==> BKey(bs'[|bs|]) == keys[n - 1] && bs'[|bs|].ids == [n - 1]
    requires |bs'| == |bs| + 1 ==> forall x :: 0 <= x < n - 1 ==> keys[x] != keys[n - 1]
    ensures bs'[j].ids == IdsWithKey(keys, BKey(bs'[j]), n)
  {
    if j == |bs| {
      NoIdsWithKey(keys, keys[n - 1], n - 1);
    } else {
      assert IdsWithKey(keys, BKey(bs[j]), n) ==
        IdsWithKey(keys, BKey(bs[j]), n - 1) + (if keys[n - 1] == BKey(bs[j]) then [n - 1] else []);
    }
  }

  lemma BucketsStepCover(keys: seq<(string, string)>, n: nat)
    requires 0 < n <= |keys| && BucketsExact(keys, n - 1, Buckets(keys, n - 1))
    ensures forall x :: 0 <= x < n ==> FindBucket(Buckets(keys, n), keys[x]).Some?
  {
    var bs, k := Buckets(keys, n - 1), keys[n - 1];
    SetDefaultAppendEffect(bs, k, n - 1);
    var bs' := Buckets(keys, n);
    forall x | 0 <= x < n
      ensures FindBucket(bs', keys[x]).Some?
    {
      var j := if x < n - 1 then FindBucket(bs, keys[x]).value
               else if FindBucket(bs, k).Some? then FindBucket(bs, k).value else |bs|;
      assert BKey(bs'[j]) == keys[x];
    }
  }

  /** Each bucket holds exactly the ids of its key, ascending; keys are distinct; every id has its bucket. */
  lemma {:induction false} BucketsCorrect(keys: seq<(string, string)>, n: nat)
    requires n <= |keys|
    ensures BucketsExact(keys, n, Buckets(keys, n))
  {
    if n > 0 {
      BucketsCorrect(keys, n - 1);
      SetDefaultAppendEffect(Buckets(keys, n - 1), keys[n - 1], n - 1);
      BucketsStepIds(keys, n);
      BucketsStepCover(keys, n);
      assert DistinctKeys(Buckets(keys, n));
    }
  }

  // ---------------------------------------------------------------- base choice and pairs

  /** The sort key of an id inside a group: the lower-cased name of its file. */
  function IdKeyOf(ps: seq<FileEntry>): nat -> seq<string> {
    (fid: nat) => [IdName(ps, fid)]
  }

  /** `paths_by_id[fid].name.lower()`. */
  function IdName(ps: seq<FileEntry>, fid: nat): string {
    if fid < |ps| then Lower(ps[fid].name) else ""
  }

  /** A base candidate: its stem lower-cases to the group's name key and carries no duplicate suffix. */
  predicate Plain(f: FileEntry, nameKey: string) {
    Lower(Stem(f.name)) == nameKey && DupSuffixPrefix(Stem(f.name)).None?
  }

  /** The first id in `ids` whose file is a base candidate (the loop that breaks). */
  function FirstPlain(ps: seq<FileEntry>, ids: seq<nat>, nameKey: string): (r: Option<nat>)
    requires Below(ids, |ps|)
    ensures r.Some? ==> r.value in ids
  {
    if |ids| == 0 then None
    else if Plain(ps[ids[0]], nameKey) then Some(ids[0])
    else FirstPlain(ps, ids[1..], nameKey)
  }

  function BaseOf(ps: seq<FileEntry>, ids: seq<nat>, nameKey: string): (b: nat)
    requires |ids| > 0 && Below(ids, |ps|)
    ensures b in ids
  {
    match FirstPlain(ps, ids, nameKey)
    case Some(b) => b
    case None => ids[0]
  }

  /** Both dimensions known and non-zero, so that an aspect ratio exists. */
  predicate Known(fi: FileInfo) {
    fi.width.Some? && fi.height.Some? && fi.width.value > 0 && fi.height.value > 0
  }

  /** The aspect ratios differ by at most 0.1% of the base's, in exact integer form. */
  predicate AspectClose(b: FileInfo, o: FileInfo)
    requires Known(b) && Known(o)
  {
    var bw, bh, ow, oh := b.width.value, b.height.value, o.width.value, o.height.value;
    1000 * Abs(bw * oh - ow * bh) <= bw * oh
  }

  /** Whether a member is paired with the base: always when the base's ratio is unknown. */
  predicate Accept(b: FileInfo, o: FileInfo) {
    !Known(b) || (Known(o) && AspectClose(b, o))
  }

  /** The pairs of one group: the base with every other accepted member, in member order. */
  function GroupPairs(infos: seq<FileInfo>, base: nat, ids: seq<nat>, gk: string): seq<Pair>
    requires base < |infos| && Below(ids, |infos|)
  {
    if |ids| == 0 then []
    else
      var o := ids[|ids| - 1];
      GroupPairs(infos, base, ids[..|ids| - 1], gk)
        + (if o != base && Accept(infos[base], infos[o]) then [Pair(base, o, gk)] else [])
  }

  lemma {:induction false} GroupPairsMembers(infos: seq<FileInfo>, base: nat, ids: seq<nat>, gk: string, pr: Pair)
    requires base < |infos| && Below(ids, |infos|)
    ensures pr in GroupPairs(infos, base, ids, gk) <==>
      pr.left == base && pr.right in ids && pr.right != base && Accept(infos[base], infos[pr.right]) && pr.groupKey == gk
  {
    if |ids| > 0 {
      GroupPairsMembers(infos, base, ids[..|ids| - 1], gk, pr);
      assert ids == ids[..|ids| - 1] + [ids[|ids| - 1]];
    }
  }

  /** One bucket's contribution: nothing below two members, else its group and its pairs. */
  function GroupStep(ps: seq<FileEntry>, infos: seq<FileInfo>, b: Bucket): (seq<Group>, seq<Pair>)
    requires |infos| == |ps| && Below(b.ids, |ps|)
  {
    if |b.ids| < 2 then ([], [])
    else
      var ids := SortBy<nat>(b.ids, IdKeyOf(ps));
      SortByPermutes(b.ids, IdKeyOf(ps));
      assert Below(ids, |ps|) by {
        forall i | 0 <= i < |ids|
          ensures ids[i] < |ps|
        {
          assert ids[i] in multiset(b.ids);
        }
      }
      var gk := GroupKeyString(b.folder, b.nameKey);
      ([Group(gk, ids)], GroupPairs(infos, BaseOf(ps, ids, b.nameKey), ids, gk))
  }

  predicate IdsBelow(bs: seq<Bucket>, n: nat) {
    forall j :: 0 <= j < |bs| ==> Below(bs[j].ids, n)
  }

  /** Every bucket's contribution, in insertion order. */
  function Steps(ps: seq<FileEntry>, infos: seq<FileInfo>, bs: seq<Bucket>): seq<(seq<Group>, seq<Pair>)>
    requires |infos| == |ps| && IdsBelow(bs, |ps|)
  {
    seq(|bs|, j requires 0 <= j < |bs| => GroupStep(ps, infos, bs[j]))
  }

  /** The concatenation of a list of lists. */
  function Flatten<T>(ss: seq<seq<T>>): seq<T> {
    if |ss| == 0 then [] else Flatten(ss[..|ss| - 1]) + ss[|ss| - 1]
  }

  function AllGroups(steps: seq<(seq<Group>, seq<Pair>)>): seq<Group> {
    Flatten(seq(|steps|, j requires 0 <= j < |steps| => steps[j].0))
  }

  function AllPairs(steps: seq<(seq<Group>, seq<Pair>)>): seq<Pair> {
    Flatten(seq(|steps|, j requires 0 <= j < |steps| => steps[j].1))
  }

  function GroupOrder(g: Group): seq<string> {
    [g.key]
  }

  function PairOrderOf(ps: seq<FileEntry>): Pair -> seq<string> {
    (p: Pair) => [p.groupKey, IdName(ps, p.left), IdName(ps, p.right)]
  }

  /** The state `build_index` leaves behind. */
  datatype Index = Index(files: seq<FileEntry>, infos: seq<FileInfo>, groups: seq<Group>, pairs: seq<Pair>)

  lemma BucketsBelow(keys: seq<(string, string)>)
    ensures IdsBelow(Buckets(keys, |keys|), |keys|)
  {
    BucketsCorrect(keys, |keys|);
    var bs := Buckets(keys, |keys|);
    forall j | 0 <= j < |bs|
      ensures Below(bs[j].ids, |keys|)
    {
      IdsWithKeyFacts(keys, BKey(bs[j]), |keys|);
    }
  }

  function BuildIndex(files: seq<FileEntry>, sub: seq<string>): Index {
    var ps := IndexedFiles(files, sub);
    var infos := Infos(ps);
    var keys := Keys(ps);
    var bs := Buckets(keys, |keys|);
    BucketsBelow(keys);
    var steps := Steps(ps, infos, bs);
    Index(ps, infos, SortBy(AllGroups(steps), GroupOrder), SortBy(AllPairs(steps), PairOrderOf(ps)))
  }
}
