/**
 * Properties of the index: which files it holds and in what order, which
 * groups and pairs it produces, how the base is chosen, and how the
 * dimensions of the base decide which members are paired.
 */
module IndexFacts {
  import opened Wrappers
  import opened PathKeys
  import opened Ordering
  import opened IndexSpec
  import opened HeaderFormats

  // ---------------------------------------------------------------- indexed files

  lemma {:induction false} CollectMembers(files: seq<FileEntry>, sub: seq<string>)
    ensures forall f :: f in Collect(files, sub) <==> f in files && Indexable(f, sub)
  {
    if |files| > 0 {
      CollectMembers(files[..|files| - 1], sub);
      assert files == files[..|files| - 1] + [files[|files| - 1]];
    }
  }

  /** The index holds exactly the indexable files, in lower-case name order. */
  lemma IndexedFilesFacts(files: seq<FileEntry>, sub: seq<string>)
    ensures forall f :: f in IndexedFiles(files, sub) <==> f in files && Indexable(f, sub)
    ensures multiset(IndexedFiles(files, sub)) == multiset(Collect(files, sub))
    ensures SortedBy(IndexedFiles(files, sub), ByName)
  {
    CollectMembers(files, sub);
    SortByPermutes(Collect(files, sub), ByName);
    SortBySorted(Collect(files, sub), ByName);
    forall f
      ensures f in IndexedFiles(files, sub) <==> f in Collect(files, sub)
    {
      assert f in IndexedFiles(files, sub) <==> f in multiset(IndexedFiles(files, sub));
    }
  }

  /** Nothing inside a hidden directory or the trash directory is indexed, nor any hidden file. */
  lemma HiddenNeverIndexed(files: seq<FileEntry>, sub: seq<string>, f: FileEntry, k: nat)
    requires (|sub| <= k < |f.dir| && (StartsWithDot(f.dir[k]) || f.dir[k] == TRASH_DIR)) || StartsWithDot(f.name)
    ensures f !in IndexedFiles(files, sub)
  {
    IndexedFilesFacts(files, sub);
    if StartsWithDot(f.name) {
      assert !Indexable(f, sub);
    } else {
      assert !VisibleDir(f.dir[k]);
    }
  }

  // ---------------------------------------------------------------- base choice

  /**
   * The base is the first member that is a base candidate; when there is
   * none it is the first member.
   */
  lemma {:induction false} BaseChoice(ps: seq<FileEntry>, ids: seq<nat>, nameKey: string)
    requires |ids| > 0 && Below(ids, |ps|)
    ensures var b := BaseOf(ps, ids, nameKey);
      || (exists i :: 0 <= i < |ids| && ids[i] == b && Plain(ps[b], nameKey)
            && forall i' :: 0 <= i' < i ==> !Plain(ps[ids[i']], nameKey))
      || (b == ids[0] && forall i :: 0 <= i < |ids| ==> !Plain(ps[ids[i]], nameKey))
  {
    FirstPlainFirst(ps, ids, nameKey);
  }

  lemma {:induction false} FirstPlainFirst(ps: seq<FileEntry>, ids: seq<nat>, nameKey: string)
    requires Below(ids, |ps|)
    ensures FirstPlain(ps, ids, nameKey).None? <==> forall i :: 0 <= i < |ids| ==> !Plain(ps[ids[i]], nameKey)
    ensures FirstPlain(ps, ids, nameKey).Some? ==>
      exists i :: 0 <= i < |ids| && ids[i] == FirstPlain(ps, ids, nameKey).value && Plain(ps[ids[i]], nameKey)
        && forall i' :: 0 <= i' < i ==> !Plain(ps[ids[i']], nameKey)
  {
    if |ids| > 0 && !Plain(ps[ids[0]], nameKey) {
      FirstPlainFirst(ps, ids[1..], nameKey);
      if FirstPlain(ps, ids[1..], nameKey).Some? {
        var i :| 0 <= i < |ids[1..]| && ids[1..][i] == FirstPlain(ps, ids[1..], nameKey).value
          && Plain(ps[ids[1..][i]], nameKey) && forall i' :: 0 <= i' < i ==> !Plain(ps[ids[1..][i']], nameKey);
        assert ids[i + 1] == ids[1..][i];
        forall i' | 0 <= i' < i + 1
          ensures !Plain(ps[ids[i']], nameKey)
        {
          if i' > 0 {
            assert ids[i'] == ids[1..][i' - 1];
          }
        }
      } else {
        forall i | 0 <= i < |ids|
          ensures !Plain(ps[ids[i]], nameKey)
        {
          if i > 0 {
            assert ids[i] == ids[1..][i - 1];
          }
        }
      }
    }
  }

  /**
   * Inside a group, the key test of the base choice adds nothing: a member
   * is a base candidate exactly when its stem carries no duplicate suffix.
   */
  lemma PlainInGroup(f: FileEntry, nameKey: string)
    requires NormalizeKey(f.name) == nameKey
    ensures Plain(f, nameKey) <==> forall p, d :: !DupForm(Stem(f.name), p, d)
  {
    match DupSuffixPrefix(Stem(f.name))
    case Some(p) => DupSuffixMatches(Stem(f.name), p);
    case None =>
      forall p, d
        ensures !DupForm(Stem(f.name), p, d)
      {
        DupSuffixMatches(Stem(f.name), p);
      }
  }

  // ---------------------------------------------------------------- groups and pairs

  /** The members of the files with key k: what the group of k holds. */
  function Members(ps: seq<FileEntry>, k: (string, string)): (m: seq<nat>)
    ensures Below(m, |ps|) && StrictlyAscending(m)
  {
    IdsWithKeyFacts(Keys(ps), k, |ps|);
    IdsWithKey(Keys(ps), k, |ps|)
  }

  /** The base of the group of key k (0 when no file has that key). */
  function GroupBase(ps: seq<FileEntry>, k: (string, string)): (b: nat)
    ensures |Members(ps, k)| > 0 ==> b in Members(ps, k) && b < |ps|
  {
    var m := Members(ps, k);
    if |m| == 0 then 0 else BaseOf(ps, m, k.1)
  }

  /** pr is a pair of the group of key k: the base with another accepted member. */
  predicate PairOfKey(ps: seq<FileEntry>, infos: seq<FileInfo>, k: (string, string), pr: Pair)
    requires |infos| == |ps|
  {
    var m := Members(ps, k);
    && |m| >= 2 && pr.right in m && pr.left == GroupBase(ps, k) && pr.right != pr.left
    && Accept(infos[pr.left], infos[pr.right]) && pr.groupKey == GroupKeyString(k.0, k.1)
  }

  /** Members of a group are already in name order, so sorting them changes nothing. */
  lemma MembersInNameOrder(ps: seq<FileEntry>, k: (string, string))
    requires SortedBy(ps, ByName)
    ensures SortBy<nat>(Members(ps, k), IdKeyOf(ps)) == Members(ps, k)
  {
    var m := Members(ps, k);
    IdsWithKeyFacts(Keys(ps), k, |ps|);
    assert SortedBy(m, IdKeyOf(ps)) by {
      forall i, j | 0 <= i < j < |m|
        ensures KeyLe(IdKeyOf(ps)(m[i]), IdKeyOf(ps)(m[j]))
      {
        assert KeyLe(ByName(ps[m[i]]), ByName(ps[m[j]]));
      }
    }
    SortBySortedIdentity(m, IdKeyOf(ps));
  }

  lemma GroupStepFacts(ps: seq<FileEntry>, infos: seq<FileInfo>, b: Bucket, pr: Pair)
    requires |infos| == |ps| && SortedBy(ps, ByName) && b.ids == Members(ps, BKey(b))
    ensures Below(b.ids, |ps|)
    ensures GroupStep(ps, infos, b).0 == if |b.ids| < 2 then [] else [Group(GroupKeyString(b.folder, b.nameKey), b.ids)]
    ensures pr in GroupStep(ps, infos, b).1 <==> PairOfKey(ps, infos, BKey(b), pr)
  {
    IdsWithKeyFacts(Keys(ps), BKey(b), |ps|);
    if |b.ids| >= 2 {
      MembersInNameOrder(ps, BKey(b));
      var base := BaseOf(ps, b.ids, b.nameKey);
      GroupPairsMembers(infos, base, b.ids, GroupKeyString(b.folder, b.nameKey), pr);
    }
  }

  lemma {:induction false} FlattenMembers<T>(ss: seq<seq<T>>, x: T)
    ensures x in Flatten(ss) <==> exists j :: 0 <= j < |ss| && x in ss[j]
  {
    if |ss| > 0 {
      FlattenMembers(ss[..|ss| - 1], x);
      if x in ss[|ss| - 1] {
        assert 0 <= |ss| - 1 < |ss| && x in ss[|ss| - 1];
      }
      forall j | 0 <= j < |ss| - 1
        ensures ss[..|ss| - 1][j] == ss[j]
      {
      }
    }
  }

  lemma StepsPairs(ps: seq<FileEntry>, infos: seq<FileInfo>, bs: seq<Bucket>, pr: Pair)
    requires |infos| == |ps| && IdsBelow(bs, |ps|)
    ensures pr in AllPairs(Steps(ps, infos, bs)) <==> exists j :: 0 <= j < |bs| && pr in GroupStep(ps, infos, bs[j]).1
  {
    var steps := Steps(ps, infos, bs);
    var ss := seq(|steps|, j requires 0 <= j < |steps| => steps[j].1);
    FlattenMembers(ss, pr);
    assert forall j :: 0 <= j < |bs| ==> ss[j] == GroupStep(ps, infos, bs[j]).1;
  }

  lemma StepsGroups(ps: seq<FileEntry>, infos: seq<FileInfo>, bs: seq<Bucket>, g: Group)
    requires |infos| == |ps| && IdsBelow(bs, |ps|)
    ensures g in AllGroups(Steps(ps, infos, bs)) <==> exists j :: 0 <= j < |bs| && g in GroupStep(ps, infos, bs[j]).0
  {
    var steps := Steps(ps, infos, bs);
    var ss := seq(|steps|, j requires 0 <= j < |steps| => steps[j].0);
    FlattenMembers(ss, g);
    assert forall j :: 0 <= j < |bs| ==> ss[j] == GroupStep(ps, infos, bs[j]).0;
  }

  lemma SortedMembers<T>(s: seq<T>, key: T -> seq<string>, x: T)
    ensures x in SortBy(s, key) <==> x in s
  {
    SortByPermutes(s, key);
    assert x in SortBy(s, key) <==> x in multiset(SortBy(s, key));
  }

  /** The steps of building the index, named for the lemmas below. */
  lemma Unfold(files: seq<FileEntry>, sub: seq<string>)
    ensures var idx := BuildIndex(files, sub);
      var ps := IndexedFiles(files, sub);
      var bs := Buckets(Keys(ps), |ps|);
      && IdsBelow(bs, |ps|)
      && idx.files == ps && idx.infos == Infos(ps)
      && idx.groups == SortBy(AllGroups(Steps(ps, Infos(ps), bs)), GroupOrder)
      && idx.pairs == SortBy(AllPairs(Steps(ps, Infos(ps), bs)), PairOrderOf(ps))
  {
    BucketsBelow(Keys(IndexedFiles(files, sub)));
  }

  /**
   * A pair is a candidate exactly when it pairs the base of the group of
   * its right-hand file with that file, that file is not the base, and the
   * aspect filter accepts it.
   */
  lemma PairMembership(files: seq<FileEntry>, sub: seq<string>, pr: Pair)
    ensures var idx := BuildIndex(files, sub);
      pr in idx.pairs <==> pr.right < |idx.files| && PairOfKey(idx.files, idx.infos, KeyOf(idx.files[pr.right]), pr)
  {
    Unfold(files, sub);
    IndexedFilesFacts(files, sub);
    var ps := IndexedFiles(files, sub);
    var infos := Infos(ps);
    var keys := Keys(ps);
    var bs := Buckets(keys, |ps|);
    BucketsCorrect(keys, |ps|);
    var prs := AllPairs(Steps(ps, infos, bs));
    StepsPairs(ps, infos, bs, pr);
    SortedMembers(prs, PairOrderOf(ps), pr);
    if pr in prs {
      var j :| 0 <= j < |bs| && pr in GroupStep(ps, infos, bs[j]).1;
      GroupStepFacts(ps, infos, bs[j], pr);
      IdsWithKeyFacts(keys, BKey(bs[j]), |ps|);
      assert keys[pr.right] == BKey(bs[j]);
    }
    if pr.right < |ps| && PairOfKey(ps, infos, KeyOf(ps[pr.right]), pr) {
      assert keys[pr.right] == KeyOf(ps[pr.right]);
      var j := FindBucket(bs, keys[pr.right]).value;
      GroupStepFacts(ps, infos, bs[j], pr);
    }
  }

  /**
   * Every pair joins two different files of the same (folder key, name key)
   * group of at least two, under that group's key; with well-formed paths
   * the two files are in the same directory.
   */
  lemma PairsSound(files: seq<FileEntry>, sub: seq<string>, pr: Pair)
    requires pr in BuildIndex(files, sub).pairs
    ensures var idx := BuildIndex(files, sub);
      && pr.left < |idx.files| && pr.right < |idx.files| && pr.left != pr.right
      && KeyOf(idx.files[pr.left]) == KeyOf(idx.files[pr.right])
      && |Members(idx.files, KeyOf(idx.files[pr.right]))| >= 2
      && pr.groupKey == GroupKeyString(FolderKey(PathOf(idx.files[pr.right])), NormalizeKey(idx.files[pr.right].name))
      && (ValidPath(PathOf(idx.files[pr.left])) && ValidPath(PathOf(idx.files[pr.right])) ==>
            idx.files[pr.left].dir == idx.files[pr.right].dir)
  {
    PairMembership(files, sub, pr);
    var idx := BuildIndex(files, sub);
    var ps := idx.files;
    var k := KeyOf(ps[pr.right]);
    IdsWithKeyFacts(Keys(ps), k, |ps|);
    assert Keys(ps)[pr.left] == k;
    var l, r := PathOf(ps[pr.left]), PathOf(ps[pr.right]);
    if ValidPath(l) && ValidPath(r) {
      FolderKeySameParent(l, r);
      assert Parent(l) == ps[pr.left].dir;
      assert Parent(r) == ps[pr.right].dir;
    }
  }

  /** When the base's dimensions are unknown, every other member of the group is paired with it. */
  lemma UnknownBasePairsAll(files: seq<FileEntry>, sub: seq<string>, k: (string, string), o: nat)
    ensures var idx := BuildIndex(files, sub);
      var m := Members(idx.files, k);
      var b := GroupBase(idx.files, k);
      |m| >= 2 && !Known(idx.infos[b]) && o in m && o != b ==> Pair(b, o, GroupKeyString(k.0, k.1)) in idx.pairs
  {
    var idx := BuildIndex(files, sub);
    var m := Members(idx.files, k);
    var b := GroupBase(idx.files, k);
    if |m| >= 2 && !Known(idx.infos[b]) && o in m && o != b {
      PairMembership(files, sub, Pair(b, o, GroupKeyString(k.0, k.1)));
      MemberKey(idx.files, k, o);
    }
  }

  /** When the base's dimensions are known, a member is paired exactly when its ratio is known and within 0.1%. */
  lemma KnownBaseFiltersByAspect(files: seq<FileEntry>, sub: seq<string>, k: (string, string), o: nat)
    ensures var idx := BuildIndex(files, sub);
      var m := Members(idx.files, k);
      var b := GroupBase(idx.files, k);
      |m| >= 2 && Known(idx.infos[b]) && o in m && o != b ==>
        (Pair(b, o, GroupKeyString(k.0, k.1)) in idx.pairs <==>
           Known(idx.infos[o]) && AspectClose(idx.infos[b], idx.infos[o]))
  {
    var idx := BuildIndex(files, sub);
    var m := Members(idx.files, k);
    var b := GroupBase(idx.files, k);
    if |m| >= 2 && Known(idx.infos[b]) && o in m && o != b {
      PairMembership(files, sub, Pair(b, o, GroupKeyString(k.0, k.1)));
      MemberKey(idx.files, k, o);
    }
  }

  /** A member of the group of key k has key k. */
  lemma MemberKey(ps: seq<FileEntry>, k: (string, string), o: nat)
    requires o in Members(ps, k)
    ensures o < |ps| && KeyOf(ps[o]) == k
  {
    IdsWithKeyFacts(Keys(ps), k, |ps|);
    assert Keys(ps)[o] == k;
  }

  /** The pairs are in (group key, lower base name, lower other name) order, and so are the groups by key. */
  lemma IndexOrdered(files: seq<FileEntry>, sub: seq<string>)
    ensures SortedBy(BuildIndex(files, sub).pairs, PairOrderOf(BuildIndex(files, sub).files))
    ensures SortedBy(BuildIndex(files, sub).groups, GroupOrder)
  {
    Unfold(files, sub);
    var ps := IndexedFiles(files, sub);
    var bs := Buckets(Keys(ps), |ps|);
    SortBySorted(AllPairs(Steps(ps, Infos(ps), bs)), PairOrderOf(ps));
    SortBySorted(AllGroups(Steps(ps, Infos(ps), bs)), GroupOrder);
  }

  /** A group of the index: the key shared by at least two files, with all of its files in name order. */
  predicate GroupOfFile(ps: seq<FileEntry>, x: nat, g: Group)
    requires x < |ps|
  {
    var k := KeyOf(ps[x]);
    |Members(ps, k)| >= 2 && g == Group(GroupKeyString(k.0, k.1), Members(ps, k))
  }

  lemma GroupsSound(files: seq<FileEntry>, sub: seq<string>, g: Group)
    requires g in BuildIndex(files, sub).groups
    ensures exists x :: 0 <= x < |BuildIndex(files, sub).files| && GroupOfFile(BuildIndex(files, sub).files, x, g)
  {
    Unfold(files, sub);
    IndexedFilesFacts(files, sub);
    var ps := IndexedFiles(files, sub);
    var bs := Buckets(Keys(ps), |ps|);
    SortedMembers(AllGroups(Steps(ps, Infos(ps), bs)), GroupOrder, g);
    var x := GroupFromStep(ps, g);
    assert 0 <= x < |BuildIndex(files, sub).files| && GroupOfFile(BuildIndex(files, sub).files, x, g);
  }

  lemma GroupFromStep(ps: seq<FileEntry>, g: Group) returns (x: nat)
    requires SortedBy(ps, ByName) && IdsBelow(Buckets(Keys(ps), |ps|), |ps|)
    requires g in AllGroups(Steps(ps, Infos(ps), Buckets(Keys(ps), |ps|)))
    ensures x < |ps| && GroupOfFile(ps, x, g)
  {
    var infos := Infos(ps);
    var keys := Keys(ps);
    var bs := Buckets(keys, |ps|);
    BucketsCorrect(keys, |ps|);
    StepsGroups(ps, infos, bs, g);
    var j :| 0 <= j < |bs| && g in GroupStep(ps, infos, bs[j]).0;
    x := GroupOfBucket(ps, infos, bs[j], g);
  }

  /** A group made from a bucket is the group of the bucket's first file. */
  lemma GroupOfBucket(ps: seq<FileEntry>, infos: seq<FileInfo>, b: Bucket, g: Group) returns (x: nat)
    requires |infos| == |ps| && SortedBy(ps, ByName) && b.ids == Members(ps, BKey(b))
    requires g in GroupStep(ps, infos, b).0
    ensures x < |ps| && GroupOfFile(ps, x, g)
  {
    GroupStepFacts(ps, infos, b, Pair(0, 0, ""));
    x := b.ids[0];
    MemberKey(ps, BKey(b), x);
  }

  /** Every key shared by at least two files has its group, holding all of those files. */
  lemma GroupsComplete(files: seq<FileEntry>, sub: seq<string>, x: nat, g: Group)
    requires x < |BuildIndex(files, sub).files| && GroupOfFile(BuildIndex(files, sub).files, x, g)
    ensures g in BuildIndex(files, sub).groups
  {
    Unfold(files, sub);
    var ps := IndexedFiles(files, sub);
    var infos := Infos(ps);
    var keys := Keys(ps);
    var bs := Buckets(keys, |ps|);
    BucketsCorrect(keys, |ps|);
    var gs := AllGroups(Steps(ps, infos, bs));
    IndexedFilesFacts(files, sub);
    assert keys[x] == KeyOf(ps[x]);
    var j := FindBucket(bs, keys[x]).value;
    GroupStepFacts(ps, infos, bs[j], Pair(0, 0, ""));
    StepsGroups(ps, infos, bs, g);
    SortedMembers(gs, GroupOrder, g);
  }

  function RealAbs(x: real): real {
    if x < 0.0 then -x else x
  }

  lemma RelativeDifference(bw: real, bh: real, ow: real, oh: real)
    requires bw > 0.0 && bh > 0.0 && ow > 0.0 && oh > 0.0
    ensures RealAbs(bw / bh - ow / oh) / (bw / bh) == RealAbs(bw * oh - ow * bh) / (bw * oh)
  {
    var d := bw * oh - ow * bh;
    assert bw / bh - ow / oh == d / (bh * oh);
    assert RealAbs(d / (bh * oh)) == RealAbs(d) / (bh * oh);
    assert (RealAbs(d) / (bh * oh)) / (bw / bh) == RealAbs(d) / (bw * oh);
  }

  lemma ScaledBound(x: real, y: real)
    requires x >= 0.0 && y > 0.0
    ensures x / y <= 0.001 <==> 1000.0 * x <= y
  {
    assert x == (x / y) * y;
  }

  lemma CastDifference(bw: int, bh: int, ow: int, oh: int)
    ensures (bw as real) * (oh as real) - (ow as real) * (bh as real) == (bw * oh - ow * bh) as real
    ensures (bw as real) * (oh as real) == (bw * oh) as real
    ensures RealAbs((bw * oh - ow * bh) as real) == Abs(bw * oh - ow * bh) as real
    ensures 1000 * Abs(bw * oh - ow * bh) <= bw * oh <==> 1000.0 * (Abs(bw * oh - ow * bh) as real) <= (bw * oh) as real
  {
  }

  /**
   * The integer test is app.py's ratio test read over exact rationals:
   * |b - o| / b <= 0.001 for the ratios b and o of base and other.
   */
  lemma AspectCloseIsRatioTest(b: FileInfo, o: FileInfo)
    requires Known(b) && Known(o)
    ensures var rb := b.width.value as real / b.height.value as real;
      var ro := o.width.value as real / o.height.value as real;
      AspectClose(b, o) <==> RealAbs(rb - ro) / rb <= 0.001
  {
    var bw: int, bh: int, ow: int, oh: int := b.width.value, b.height.value, o.width.value, o.height.value;
    RatioTestReal(bw as real, bh as real, ow as real, oh as real);
    CastDifference(bw, bh, ow, oh);
  }

  /** Over positive reals, the relative ratio test is the cross-multiplied one. */
  lemma RatioTestReal(bw: real, bh: real, ow: real, oh: real)
    requires bw > 0.0 && bh > 0.0 && ow > 0.0 && oh > 0.0
    ensures RealAbs(bw / bh - ow / oh) / (bw / bh) <= 0.001 <==> 1000.0 * RealAbs(bw * oh - ow * bh) <= bw * oh
  {
    RelativeDifference(bw, bh, ow, oh);
    assert bw * oh > 0.0;
    ScaledBound(RealAbs(bw * oh - ow * bh), bw * oh);
  }
}
