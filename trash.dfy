/**
 * The name a file gets in the trash directory: its path below the root,
 * under the trash directory, and when that is taken, the same path with
 * ` (n)` before the suffix for the smallest free n from 2 on.
 */
module Trash {
  import opened PathKeys

  function DigitChar(d: nat): char
    requires d < 10
  {
    ('0' as int + d) as char
  }

  /** `str(n)` for a natural number. */
  function NatToString(n: nat): (s: string)
    ensures |s| > 0 && AllDigits(s)
  {
    if n < 10 then [DigitChar(n)] else NatToString(n / 10) + [DigitChar(n % 10)]
  }

  /** `int(s)` for a string of decimal digits. */
  function ParseNat(s: string): nat
    requires AllDigits(s)
  {
    if |s| == 0 then 0 else ParseNat(s[..|s| - 1]) * 10 + (s[|s| - 1] as int - '0' as int)
  }

  /** Reading back a written number gives the number. */
  lemma {:induction false} ParseNatToString(n: nat)
    ensures ParseNat(NatToString(n)) == n
  {
    if n >= 10 {
      ParseNatToString(n / 10);
      var s := NatToString(n);
      assert s[..|s| - 1] == NatToString(n / 10);
    }
  }

  function Candidate(base: string, ext: string, n: nat): string {
    base + " (" + NatToString(n) + ")" + ext
  }

  /** Different numbers give different candidate names. */
  lemma CandidateInjective(base: string, ext: string, m: nat, n: nat)
    requires Candidate(base, ext, m) == Candidate(base, ext, n)
    ensures m == n
  {
    var a, b := NatToString(m), NatToString(n);
    var c := Candidate(base, ext, m);
    assert |a| == |b|;
    assert a == c[|base| + 2..|base| + 2 + |a|];
    assert b == c[|base| + 2..|base| + 2 + |b|];
    ParseNatToString(m);
    ParseNatToString(n);
  }

  /** The collision loop: the smallest n >= 2 whose candidate is not taken. */
  method FreeCandidate(base: string, ext: string, existing: set<string>) returns (n: nat, name: string)
    ensures n >= 2 && name == Candidate(base, ext, n) && name !in existing
    ensures forall m :: 2 <= m < n ==> Candidate(base, ext, m) in existing
  {
    n := 2;
    while Candidate(base, ext, n) in existing
      invariant n >= 2 && n - 2 <= |existing|
      invariant forall m :: 2 <= m < n ==> Candidate(base, ext, m) in existing
      decreases |existing| - (n - 2)
    {
      n := n + 1;
      TakenBound(base, ext, existing, n);
    }
    name := Candidate(base, ext, n);
  }

  /** The candidates numbered 2 to n - 1. */
  ghost function Tried(base: string, ext: string, n: nat): set<string> {
    set m | 2 <= m < n :: Candidate(base, ext, m)
  }

  /** The candidates are pairwise different, so n - 2 of them are n - 2 names. */
  lemma {:induction false} TriedCard(base: string, ext: string, n: nat)
    requires n >= 2
    ensures |Tried(base, ext, n)| == n - 2
  {
    if n > 2 {
      TriedCard(base, ext, n - 1);
      var c := Candidate(base, ext, n - 1);
      assert Tried(base, ext, n) == Tried(base, ext, n - 1) + {c};
      if c in Tried(base, ext, n - 1) {
        var m :| 2 <= m < n - 1 && c == Candidate(base, ext, m);
        CandidateInjective(base, ext, m, n - 1);
        assert false;
      }
    }
  }

  /** When n - 2 candidates are all taken there are at least n - 2 existing paths. */
  lemma TakenBound(base: string, ext: string, existing: set<string>, n: nat)
    requires n >= 2
    requires forall m :: 2 <= m < n ==> Candidate(base, ext, m) in existing
    ensures n - 2 <= |existing|
  {
    TriedCard(base, ext, n);
    var t := Tried(base, ext, n);
    assert t <= existing;
    assert existing == t + (existing - t);
  }

  /** `str(dest.with_suffix(""))` for dest = trash / rel. */
  function TrashBase(trashDir: string, rel: seq<string>): string
    requires |rel| >= 1
  {
    Join([trashDir] + Parent(rel) + [Stem(Name(rel))])
  }

  /**
   * dest is where `delete_id` moves a file: `trash / relpath`, or, when that
   * path exists, the first free ` (n)` variant of it.
   */
  ghost predicate IsTrashDest(trashDir: string, rel: seq<string>, existing: set<string>, dest: string)
    requires |rel| >= 1
  {
    var plain := Join([trashDir] + rel);
    var base, ext := TrashBase(trashDir, rel), Suffix(Name(rel));
    if plain !in existing then dest == plain
    else
      dest !in existing &&
      exists n: nat :: n >= 2 && dest == Candidate(base, ext, n) && forall m :: 2 <= m < n ==> Candidate(base, ext, m) in existing
  }

  method TrashPath(trashDir: string, rel: seq<string>, existing: set<string>) returns (dest: string)
    requires |rel| >= 1
    ensures IsTrashDest(trashDir, rel, existing, dest)
  {
    dest := Join([trashDir] + rel);
    if dest in existing {
      var n;
      n, dest := FreeCandidate(TrashBase(trashDir, rel), Suffix(Name(rel)), existing);
    }
  }
}
