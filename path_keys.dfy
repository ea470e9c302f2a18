/**
 * Keys derived from a file's path: pathlib's suffix and stem of a file
 * name, the duplicate-suffix pattern ` (n)`, the normalised name key, and
 * the folder key relative to the scan root. Paths are sequences of
 * segments relative to the root; lower-casing is ASCII-only.
 */
module PathKeys {
  import opened Wrappers

  function LowerChar(c: char): char {
    if 'A' <= c <= 'Z' then (c as int + 32) as char else c
  }

  /** `str.lower()` on ASCII letters. */
  function Lower(s: string): string {
    seq(|s|, i requires 0 <= i < |s| => LowerChar(s[i]))
  }

  lemma LowerConcat(a: string, b: string)
    ensures Lower(a + b) == Lower(a) + Lower(b)
  {
  }

  // ---------------------------------------------------------------- suffix and stem

  /** `str.rfind('.')`. */
  function LastDot(s: string): (r: Option<nat>)
    ensures r.Some? ==> r.value < |s| && s[r.value] == '.' && forall k :: r.value < k < |s| ==> s[k] != '.'
    ensures r.None? ==> forall k :: 0 <= k < |s| ==> s[k] != '.'
  {
    if |s| == 0 then None
    else if s[|s| - 1] == '.' then Some(|s| - 1)
    else LastDot(s[..|s| - 1])
  }

  /** Where pathlib splits a name into stem and suffix: a dot that is neither first nor last. */
  function SuffixStart(name: string): (r: Option<nat>)
    ensures r.Some? ==> 0 < r.value < |name| - 1 && name[r.value] == '.'
  {
    match LastDot(name)
    case Some(i) => if 0 < i < |name| - 1 then Some(i) else None
    case None => None
  }

  /** `Path.suffix` (pathlib before Python 3.14): from the last dot, unless it is first or last. */
  function Suffix(name: string): string {
    match SuffixStart(name)
    case Some(i) => name[i..]
    case None => ""
  }

  /** `Path.stem`: the name without its suffix. */
  function Stem(name: string): string {
    match SuffixStart(name)
    case Some(i) => name[..i]
    case None => name
  }

  /** Stem and suffix split the name; a suffix is a dot and at least one more character, with no further dot. */
  lemma StemSuffixSplit(name: string)
    ensures Stem(name) + Suffix(name) == name
    ensures Suffix(name) != "" ==>
      |Suffix(name)| >= 2 && Suffix(name)[0] == '.' && Stem(name) != "" && forall k :: 0 < k < |Suffix(name)| ==> Suffix(name)[k] != '.'
  {
  }

  /** Appending an extension `.e` (e non-empty, no dot) to a non-empty stem makes exactly that split. */
  lemma {:induction false} SplitOfExtension(stem: string, ext: string)
    requires |stem| > 0 && |ext| >= 2 && ext[0] == '.' && forall k :: 0 < k < |ext| ==> ext[k] != '.'
    ensures Stem(stem + ext) == stem && Suffix(stem + ext) == ext
  {
    var name := stem + ext;
    assert name[|stem|] == '.';
    assert LastDot(name) == Some(|stem|) by {
      LastDotAt(name, |stem|);
    }
  }

  lemma {:induction false} LastDotAt(s: string, i: nat)
    requires i < |s| && s[i] == '.' && forall k :: i < k < |s| ==> s[k] != '.'
    ensures LastDot(s) == Some(i)
    decreases |s|
  {
    if i < |s| - 1 {
      LastDotAt(s[..|s| - 1], i);
    }
  }

  // ---------------------------------------------------------------- the duplicate suffix

  predicate IsDigit(c: char) {
    '0' <= c <= '9'
  }

  predicate AllDigits(s: string) {
    forall i :: 0 <= i < |s| ==> IsDigit(s[i])
  }

  /** How many decimal digits stand immediately before position `end` of s. */
  function DigitsBefore(s: string, end: nat): (n: nat)
    requires end <= |s|
    ensures n <= end
    ensures forall i :: end - n <= i < end ==> IsDigit(s[i])
    ensures n < end ==> !IsDigit(s[end - n - 1])
  {
    if end == 0 || !IsDigit(s[end - 1]) then 0 else DigitsBefore(s, end - 1) + 1
  }

  /**
   * `_DUP_SUFFIX_RE.match(s).group(1)` for `^(.*?)( \([0-9]+\))$`: the part
   * before a final ` (digits)`. Python's `$` also matches just before a
   * final newline, and `.` matches anything but a newline, so the part
   * before the suffix must be free of newlines.
   */
  function DupSuffixPrefix(s: string): Option<string> {
    DupCorePrefix(if |s| > 0 && s[|s| - 1] == '\n' then s[..|s| - 1] else s)
  }

  /** The match on a string with the optional final newline already removed. */
  function DupCorePrefix(t: string): Option<string> {
    if |t| == 0 || t[|t| - 1] != ')' then None
    else
      var n := DigitsBefore(t, |t| - 1);
      var i := |t| - 1 - n;
      if n == 0 || i < 2 || t[i - 1] != '(' || t[i - 2] != ' ' || '\n' in t[..i - 2] then None
      else Some(t[..i - 2])
  }

  /** s is p, a space, a parenthesised non-empty run of digits, and possibly one final newline. */
  predicate DupForm(s: string, p: string, d: string) {
    && |d| > 0 && AllDigits(d) && '\n' !in p
    && (s == p + " (" + d + ")" || s == p + " (" + d + ")\n")
  }

  lemma {:induction false} DigitsBeforeExact(s: string, end: nat, n: nat)
    requires n <= end <= |s|
    requires forall i :: end - n <= i < end ==> IsDigit(s[i])
    requires n < end ==> !IsDigit(s[end - n - 1])
    ensures DigitsBefore(s, end) == n
    decreases end
  {
    if n > 0 {
      DigitsBeforeExact(s, end - 1, n - 1);
    }
  }

  lemma DupSuffixOfForm(s: string, p: string, d: string)
    requires DupForm(s, p, d)
    ensures DupSuffixPrefix(s) == Some(p)
  {
    var t := p + " (" + d + ")";
    assert t[|t| - 1] == ')';
    if s != t {
      assert s[..|s| - 1] == t;
    }
    DupCoreOfForm(t, p, d);
  }

  lemma DupCoreOfForm(t: string, p: string, d: string)
    requires |d| > 0 && AllDigits(d) && '\n' !in p
    requires t == p + " (" + d + ")"
    ensures DupCorePrefix(t) == Some(p)
  {
    assert t[|t| - 1 - |d| - 1] == '(';
    DigitsBeforeExact(t, |t| - 1, |d|);
    assert t[..|t| - 1 - |d| - 2] == p;
  }

  lemma DupSuffixHasForm(s: string, p: string)
    requires DupSuffixPrefix(s) == Some(p)
    ensures exists d :: DupForm(s, p, d)
  {
    var t := if |s| > 0 && s[|s| - 1] == '\n' then s[..|s| - 1] else s;
    var n := DigitsBefore(t, |t| - 1);
    var i := |t| - 1 - n;
    var d := t[i..|t| - 1];
    assert t == p + " (" + d + ")";
    assert DupForm(s, p, d);
  }

  /** The pattern matches exactly the names of that form, and group 1 is the part before the suffix. */
  lemma DupSuffixMatches(s: string, p: string)
    ensures DupSuffixPrefix(s) == Some(p) <==> exists d :: DupForm(s, p, d)
  {
    if exists d :: DupForm(s, p, d) {
      var d :| DupForm(s, p, d);
      DupSuffixOfForm(s, p, d);
    }
    if DupSuffixPrefix(s) == Some(p) {
      DupSuffixHasForm(s, p);
    }
  }

  // ---------------------------------------------------------------- name key

  /** `normalize_key`: the stem without one duplicate suffix, lower-cased. */
  function NormalizeKey(name: string): string {
    var stem := Stem(name);
    match DupSuffixPrefix(stem)
    case Some(p) => Lower(p)
    case None => Lower(stem)
  }

  /** A stem without the duplicate suffix keys to its lower-case form. */
  lemma NormalizeWithoutSuffix(name: string)
    requires forall p, d :: !DupForm(Stem(name), p, d)
    ensures NormalizeKey(name) == Lower(Stem(name))
  {
    match DupSuffixPrefix(Stem(name))
    case Some(p) => DupSuffixMatches(Stem(name), p);
    case None =>
  }

  /** Exactly one trailing ` (digits)` is stripped from the stem before lower-casing. */
  lemma NormalizeStripsOneSuffix(p: string, d: string, ext: string)
    requires |d| > 0 && AllDigits(d) && '\n' !in p
    requires |ext| >= 2 && ext[0] == '.' && forall k :: 0 < k < |ext| ==> ext[k] != '.'
    ensures NormalizeKey(p + " (" + d + ")" + ext) == Lower(p)
  {
    var stem := p + " (" + d + ")";
    SplitOfExtension(stem, ext);
    assert DupForm(stem, p, d);
    DupSuffixMatches(stem, p);
  }

  lemma NormalizeExampleCopy()
    ensures NormalizeKey("IMG (2).jpg") == "img"
  {
    var name := "IMG" + " (" + "2" + ")" + ".jpg";
    NormalizeStripsOneSuffix("IMG", "2", ".jpg");
    assert name == "IMG (2).jpg";
    assert Lower("IMG") == "img" by {
      assert forall i :: 0 <= i < 3 ==> LowerChar("IMG"[i]) == "img"[i];
    }
  }

  /** Of two duplicate suffixes only the last is removed: `p (m) (n).ext` keys to lower(`p (m)`). */
  lemma NormalizeTwoSuffixes(p: string, m: string, n: string, ext: string)
    requires |m| > 0 && AllDigits(m) && |n| > 0 && AllDigits(n) && '\n' !in p
    requires |ext| >= 2 && ext[0] == '.' && forall k :: 0 < k < |ext| ==> ext[k] != '.'
    ensures NormalizeKey(p + " (" + m + ")" + " (" + n + ")" + ext) == Lower(p + " (" + m + ")")
  {
    var q := p + " (" + m + ")";
    assert '\n' !in q by {
      assert forall i :: 0 <= i < |q| ==> q[i] != '\n' by {
        forall i | 0 <= i < |q|
          ensures q[i] != '\n'
        {
          if i >= |p| + 2 && i < |p| + 2 + |m| {
            assert IsDigit(m[i - |p| - 2]);
          }
        }
      }
    }
    NormalizeStripsOneSuffix(q, n, ext);
  }

  // ---------------------------------------------------------------- folder key

  /** `"/".join(segs)`. */
  function Join(segs: seq<string>): string {
    if |segs| == 0 then ""
    else if |segs| == 1 then segs[0]
    else segs[0] + "/" + Join(segs[1..])
  }

  /** A path segment as os.walk produces it: non-empty, no slash, not `.` or `..`. */
  predicate ValidSegment(s: string) {
    |s| > 0 && '/' !in s && s != "." && s != ".."
  }

  predicate ValidPath(rel: seq<string>) {
    |rel| >= 1 && forall i :: 0 <= i < |rel| ==> ValidSegment(rel[i])
  }

  function Parent(rel: seq<string>): seq<string>
    requires |rel| >= 1
  {
    rel[..|rel| - 1]
  }

  function Name(rel: seq<string>): string
    requires |rel| >= 1
  {
    rel[|rel| - 1]
  }

  /** `folder_rel_key`: the parent directory relative to the root, "." for the root itself. */
  function FolderKey(rel: seq<string>): string
    requires |rel| >= 1
  {
    var s := Join(Parent(rel));
    if s == "" then "." else s
  }

  lemma {:induction false} JoinOfValid(segs: seq<string>)
    requires forall i :: 0 <= i < |segs| ==> ValidSegment(segs[i])
    ensures |segs| == 0 <==> Join(segs) == ""
    ensures |segs| == 1 ==> Join(segs) == segs[0]
    ensures |segs| >= 2 ==> '/' in Join(segs)
  {
    if |segs| >= 2 {
      assert (segs[0] + "/" + Join(segs[1..]))[|segs[0]|] == '/';
    }
  }

  /** The folder key is "." exactly for files directly in the root. */
  lemma FolderKeyIsDotForRoot(rel: seq<string>)
    requires ValidPath(rel)
    ensures FolderKey(rel) == "." <==> |rel| == 1
  {
    JoinOfValid(Parent(rel));
  }

  lemma SplitAtSlash(x: string, y: string, x': string, y': string)
    requires '/' !in x && '/' !in x'
    requires y == "" || y[0] == '/'
    requires y' == "" || y'[0] == '/'
    requires x + y == x' + y'
    ensures x == x' && y == y'
  {
    assert x == (x + y)[..|x|];
    assert x' == (x' + y')[..|x'|];
  }

  /** Joining valid segments loses nothing: equal joins come from equal segment lists. */
  lemma {:induction false} JoinInjective(a: seq<string>, b: seq<string>)
    requires forall i :: 0 <= i < |a| ==> ValidSegment(a[i])
    requires forall i :: 0 <= i < |b| ==> ValidSegment(b[i])
    requires Join(a) == Join(b)
    ensures a == b
    decreases |a|
  {
    JoinOfValid(a);
    JoinOfValid(b);
    if |a| == 0 || |b| == 0 {
      return;
    }
    assert ValidSegment(a[0]) && ValidSegment(b[0]);
    JoinHeads(a, b);
    if |a| > 1 {
      JoinInjective(a[1..], b[1..]);
      assert a == [a[0]] + a[1..];
      assert b == [b[0]] + b[1..];
    }
  }

  /** Equal joins of non-empty lists agree on the first segment and on the join of the rest. */
  lemma JoinHeads(a: seq<string>, b: seq<string>)
    requires 0 < |a| && 0 < |b|
    requires '/' !in a[0] && '/' !in b[0]
    requires Join(a) == Join(b)
    ensures a[0] == b[0] && (|a| == 1 <==> |b| == 1)
    ensures |a| > 1 ==> Join(a[1..]) == Join(b[1..])
  {
    var ya := JoinSplit(a);
    var yb := JoinSplit(b);
    SplitAtSlash(a[0], ya, b[0], yb);
  }

  /** A join is its first segment followed by "" or by a slash and the join of the rest. */
  lemma JoinSplit(segs: seq<string>) returns (y: string)
    requires 0 < |segs|
    ensures Join(segs) == segs[0] + y
    ensures |segs| == 1 <==> y == ""
    ensures |segs| > 1 ==> y[0] == '/' && y[1..] == Join(segs[1..])
  {
    if |segs| == 1 {
      y := "";
    } else {
      y := "/" + Join(segs[1..]);
    }
  }

  /** Two files share a folder key exactly when they share a parent directory. */
  lemma FolderKeySameParent(a: seq<string>, b: seq<string>)
    requires ValidPath(a) && ValidPath(b)
    ensures FolderKey(a) == FolderKey(b) <==> Parent(a) == Parent(b)
  {
    JoinOfValid(Parent(a));
    JoinOfValid(Parent(b));
    if FolderKey(a) == FolderKey(b) {
      if Join(Parent(a)) == "" || Join(Parent(b)) == "" {
        assert Join(Parent(a)) == "" && Join(Parent(b)) == "";
      } else {
        JoinInjective(Parent(a), Parent(b));
      }
    }
  }

  /** The group key shown for a group: the name key alone in the root, else `folder / name`. */
  function GroupKeyString(folder: string, nameKey: string): string {
    if folder == "." then nameKey else folder + " / " + nameKey
  }
}
