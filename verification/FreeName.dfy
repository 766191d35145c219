/**
 * Searches for a free name: pack IDs (backend/duplicate_pack.go) and files
 * imported into a content folder (`ImportContentFiles`, backend/content_api.go).
 */
module FreeName {
  import opened Common

  // -------------------------------------------------------------------------
  // Decimal suffixes
  // -------------------------------------------------------------------------

  function Digit(d: nat): char
    requires d < 10
  {
    "0123456789"[d]
  }

  /** `%d` of a number that is not negative. */
  function Decimal(n: nat): (s: string)
    ensures |s| > 0
  {
    if n < 10 then [Digit(n)] else Decimal(n / 10) + [Digit(n % 10)]
  }

  lemma DigitInjective(a: nat, b: nat)
    requires a < 10 && b < 10 && Digit(a) == Digit(b)
    ensures a == b
  {
  }

  lemma {:induction false} DecimalInjective(a: nat, b: nat)
    requires Decimal(a) == Decimal(b)
    ensures a == b
  {
    var s, t := Decimal(a), Decimal(b);
    assert s[|s| - 1] == Digit(a % 10) && t[|t| - 1] == Digit(b % 10);
    DigitInjective(a % 10, b % 10);
    if a >= 10 && b >= 10 {
      assert s[..|s| - 1] == Decimal(a / 10) && t[..|t| - 1] == Decimal(b / 10);
      DecimalInjective(a / 10, b / 10);
    }
  }

  /** The number a string of decimal digits stands for. */
  function Value(s: string): nat
    requires forall i | 0 <= i < |s| :: '0' <= s[i] <= '9'
  {
    if s == "" then 0 else 10 * Value(s[..|s| - 1]) + (s[|s| - 1] as int - '0' as int)
  }

  /** `s` is the number `n` as a person writes it: digits, and no zero in front. */
  predicate IsNumeral(s: string, n: nat) {
    && s != "" && (forall i | 0 <= i < |s| :: '0' <= s[i] <= '9')
    && (|s| > 1 ==> s[0] != '0')
    && Value(s) == n
  }

  lemma {:induction false} DecimalIsNumeral(n: nat)
    ensures IsNumeral(Decimal(n), n)
  {
    var s := Decimal(n);
    assert Digit(n % 10) as int == '0' as int + n % 10;
    if n >= 10 {
      var front := Decimal(n / 10);
      DecimalIsNumeral(n / 10);
      assert s[..|s| - 1] == front && s[0] == front[0];
      if front == "0" {
        assert Value(front[..0]) == 0;
      }
    } else {
      assert s[..0] == "";
    }
  }

  /** `<front>-<i><back>`. */
  function Suffixed(front: string, i: nat, back: string): string {
    front + "-" + Decimal(i) + back
  }

  lemma SuffixedInjective(front: string, i: nat, j: nat, back: string)
    requires Suffixed(front, i, back) == Suffixed(front, j, back)
    ensures i == j
  {
    var s, t := Suffixed(front, i, back), Suffixed(front, j, back);
    assert s[|front| + 1..|s| - |back|] == Decimal(i);
    assert t[|front| + 1..|t| - |back|] == Decimal(j);
    DecimalInjective(i, j);
  }

  // -------------------------------------------------------------------------
  // Pack IDs
  // -------------------------------------------------------------------------

  /** The sources of taken IDs: custom packs and, when it can be read, the pack index. */
  class Packs {
    var custom: set<string>
    var index: Option<seq<string>>

    /** The IDs in use; the empty string is never free. */
    ghost function Taken(): (t: set<string>)
      reads this
      ensures "" in t
    {
      {""} + custom + if index.Some? then (set id | id in index.value) else {}
    }

    method PackIdExists(id: string) returns (exists_: bool)
      ensures exists_ <==> id in Taken()
    {
      if id == "" || id in custom {
        return true;
      }
      if index.Some? {
        for i := 0 to |index.value|
          invariant id !in index.value[..i]
        {
          if index.value[i] == id {
            return true;
          }
        }
      }
      return false;
    }

    /** The suggestion is the first free one of `slug`, `slug-2`, `slug-3`, ...;
        there are at most as many failed tries as taken IDs. */
    method CheckDuplicatePackId(slug: string) returns (taken: bool, suggested: string, ghost tries: nat)
      ensures taken <==> slug in Taken()
      ensures suggested !in Taken()
      ensures tries <= |Taken()|
      ensures suggested == IdCandidate(slug, tries)
      ensures forall k | 0 <= k < tries :: IdCandidate(slug, k) in Taken()
    {
      suggested := slug;
      var i := 2;
      var busy := PackIdExists(suggested);
      while busy
        invariant i >= 2 && suggested == IdCandidate(slug, i - 2)
        invariant busy <==> suggested in Taken()
        invariant forall k | 0 <= k < i - 2 :: IdCandidate(slug, k) in Taken()
        decreases |Taken()| + 2 - i
      {
        IdTriesBounded(slug, i - 1, Taken());
        suggested := Suffixed(slug, i, "");
        i := i + 1;
        busy := PackIdExists(suggested);
      }
      tries := i - 2;
      IdTriesBounded(slug, tries, Taken());
      taken := PackIdExists(slug);
    }

    /** The fallback of `DuplicatePack` keeps extending the ID it has: `x`, `x-2`,
        `x-2-3`, ... until it is free. */
    method FallbackId(slug: string) returns (newId: string, ghost tries: nat)
      ensures newId !in Taken()
      ensures tries <= |Taken()|
      ensures newId == GrownId(slug, tries)
      ensures forall k | 0 <= k < tries :: GrownId(slug, k) in Taken()
    {
      newId := slug;
      var i := 2;
      var busy := PackIdExists(newId);
      while busy
        invariant i >= 2 && newId == GrownId(slug, i - 2)
        invariant busy <==> newId in Taken()
        invariant forall k | 0 <= k < i - 2 :: GrownId(slug, k) in Taken()
        decreases |Taken()| + 2 - i
      {
        GrownTriesBounded(slug, i - 1, Taken());
        newId := Suffixed(newId, i, "");
        i := i + 1;
        busy := PackIdExists(newId);
      }
      tries := i - 2;
      GrownTriesBounded(slug, tries, Taken());
    }
  }

  function IdCandidate(slug: string, k: nat): string {
    if k == 0 then slug else Suffixed(slug, k + 1, "")
  }

  function GrownId(slug: string, k: nat): string {
    if k == 0 then slug else Suffixed(GrownId(slug, k - 1), k + 1, "")
  }

  /** `s` is `front`, a hyphen, the number `n` and `back`. */
  ghost predicate Numbered(s: string, front: string, n: nat, back: string) {
    exists d :: IsNumeral(d, n) && s == front + "-" + d + back
  }

  lemma SuffixedIsNumbered(front: string, n: nat, back: string)
    ensures Numbered(Suffixed(front, n, back), front, n, back)
  {
    DecimalIsNumeral(n);
  }

  /** The candidates are `slug`, `slug-2`, `slug-3` and so on. */
  lemma IdCandidateIs(slug: string, k: nat)
    ensures if k == 0 then IdCandidate(slug, k) == slug else Numbered(IdCandidate(slug, k), slug, k + 1, "")
  {
    SuffixedIsNumbered(slug, k + 1, "");
  }

  /** And the growing ones `slug`, `slug-2`, `slug-2-3` and so on. */
  lemma GrownIdIs(slug: string, k: nat)
    ensures if k == 0 then GrownId(slug, k) == slug else Numbered(GrownId(slug, k), GrownId(slug, k - 1), k + 1, "")
  {
    if k > 0 {
      SuffixedIsNumbered(GrownId(slug, k - 1), k + 1, "");
    }
  }

  /** The candidates of one search are pairwise different. */
  lemma CandidatesDiffer(slug: string, j: nat, k: nat)
    requires j < k
    ensures IdCandidate(slug, j) != IdCandidate(slug, k)
  {
    if j > 0 && IdCandidate(slug, j) == IdCandidate(slug, k) {
      SuffixedInjective(slug, j + 1, k + 1, "");
    }
  }

  lemma {:induction false} GrownIdsDiffer(slug: string, j: nat, k: nat)
    requires j < k
    ensures |GrownId(slug, j)| < |GrownId(slug, k)|
    decreases k
  {
    if j < k - 1 {
      GrownIdsDiffer(slug, j, k - 1);
    }
  }

  /** A search that failed `n` times has met `n` taken IDs. */
  lemma {:induction false} IdTriesBounded(slug: string, n: nat, taken: set<string>)
    requires forall k | 0 <= k < n :: IdCandidate(slug, k) in taken
    ensures n <= |taken|
  {
    if n > 0 {
      var last := IdCandidate(slug, n - 1);
      forall k | 0 <= k < n - 1 ensures IdCandidate(slug, k) in taken - {last} {
        CandidatesDiffer(slug, k, n - 1);
      }
      IdTriesBounded(slug, n - 1, taken - {last});
    }
  }

  lemma {:induction false} GrownTriesBounded(slug: string, n: nat, taken: set<string>)
    requires forall k | 0 <= k < n :: GrownId(slug, k) in taken
    ensures n <= |taken|
  {
    if n > 0 {
      var last := GrownId(slug, n - 1);
      forall k | 0 <= k < n - 1 ensures GrownId(slug, k) in taken - {last} {
        GrownIdsDiffer(slug, k, n - 1);
      }
      GrownTriesBounded(slug, n - 1, taken - {last});
    }
  }

  // -------------------------------------------------------------------------
  // Files imported into a content folder
  // -------------------------------------------------------------------------

  type Bytes = seq<bv8>

  const DISABLED := ".disabled"

  /** The part from the last dot on, or nothing. */
  function Ext(name: string): (e: string)
    ensures |e| <= |name| && name[|name| - |e|..] == e
  {
    if name == "" then ""
    else if name[|name| - 1] == '.' then "."
    else
      var e := Ext(name[..|name| - 1]);
      if e == "" then "" else e + [name[|name| - 1]]
  }

  function LowerChar(c: char): char {
    if 'A' <= c <= 'Z' then c - 'A' + 'a' else c
  }

  function Lower(s: string): (r: string)
    ensures |r| == |s|
  {
    seq(|s|, i requires 0 <= i < |s| => LowerChar(s[i]))
  }

  function TrimSuffix(s: string, suffix: string): string {
    if |suffix| <= |s| && s[|s| - |suffix|..] == suffix then s[..|s| - |suffix|] else s
  }

  /** The names tried for a source file called `name`. The extension is in lower
      case, so for `A.ZIP` the second one is `A.ZIP-2.zip`. */
  function FileCandidate(name: string, k: nat): string {
    var ext := Lower(Ext(name));
    if k == 0 then name else Suffixed(TrimSuffix(name, ext), k + 1, ext)
  }

  /** `e` begins with the only dot it has, or is empty. */
  predicate OneDot(e: string) {
    e == "" || (e[0] == '.' && '.' !in e[1..])
  }

  lemma OneDotMore(e: string, c: char)
    requires OneDot(e) && e != "" && c != '.'
    ensures OneDot(e + [c])
  {
    assert (e + [c])[1..] == e[1..] + [c];
  }

  lemma DotInMore(front: string, c: char)
    ensures '.' in front + [c] <==> '.' in front || c == '.'
  {
  }

  /** The extension begins with the last dot; without a dot there is none. */
  lemma {:induction false} ExtExactly(name: string)
    ensures OneDot(Ext(name)) && (Ext(name) == "" <==> '.' !in name)
  {
    if name != "" {
      var front, last := name[..|name| - 1], name[|name| - 1];
      ExtExactly(front);
      DotInMore(front, last);
      assert name == front + [last];
      if last != '.' && Ext(front) != "" {
        OneDotMore(Ext(front), last);
      }
    }
  }

  /** `r` is `s` without the suffix, or `s` if it does not end in it. */
  ghost predicate Stem(r: string, s: string, suffix: string) {
    r + suffix == s || (r == s && forall front :: front + suffix != s)
  }

  lemma TrimSuffixExactly(s: string, suffix: string)
    ensures Stem(TrimSuffix(s, suffix), s, suffix)
  {
    if !(|suffix| <= |s| && s[|s| - |suffix|..] == suffix) {
      forall front ensures front + suffix != s {
        assert (front + suffix)[|front|..] == suffix;
      }
    }
  }

  predicate Letter(c: char, lower: char) {
    c == lower || (c in "ABCDEFGHIJKLMNOPQRSTUVWXYZ" && c as int + 32 == lower as int)
  }

  /** Files that end in `.zip` or `.jar`, in letters of either case, are accepted. */
  predicate EndsIn(name: string, x: char, y: char, z: char) {
    var n := |name|;
    n >= 4 && name[n - 4] == '.' && Letter(name[n - 3], x) && Letter(name[n - 2], y) && Letter(name[n - 1], z)
  }

  lemma LowerIs(c: char, lower: char)
    requires 'a' <= lower <= 'z'
    ensures LowerChar(c) == lower <==> Letter(c, lower)
  {
    if 'A' <= c <= 'Z' {
      assert "ABCDEFGHIJKLMNOPQRSTUVWXYZ"[c as int - 'A' as int] == c;
      assert c in "ABCDEFGHIJKLMNOPQRSTUVWXYZ";
    }
  }

  lemma ExtEndsIn(name: string, x: char, y: char, z: char)
    requires 'a' <= x <= 'z' && 'a' <= y <= 'z' && 'a' <= z <= 'z'
    ensures Lower(Ext(name)) == ['.', x, y, z] <==> EndsIn(name, x, y, z)
  {
    var e, n := Ext(name), |name|;
    ExtExactly(name);
    if |e| == 4 {
      assert e == name[n - 4..];
      LowerIs(e[1], x);
      LowerIs(e[2], y);
      LowerIs(e[3], z);
      assert Lower(e) == [LowerChar(e[0]), LowerChar(e[1]), LowerChar(e[2]), LowerChar(e[3])];
    } else if EndsIn(name, x, y, z) {
      DotIsFourth(name);
    }
  }

  /** With a dot four places from the end and letters behind it, the extension is just these. */
  lemma DotIsFourth(name: string)
    requires var n := |name|; n >= 4 && name[n - 4] == '.' && name[n - 3] != '.' && name[n - 2] != '.' && name[n - 1] != '.'
    ensures |Ext(name)| == 4
  {
    var n, e := |name|, Ext(name);
    ExtExactly(name);
    OnlyDotOf(name, e);
  }

  lemma OnlyDotOf(name: string, e: string)
    requires var n := |name|; n >= 4 && name[n - 4] == '.' && name[n - 3] != '.' && name[n - 2] != '.' && name[n - 1] != '.'
    requires e != "" && OneDot(e) && |e| <= |name| && name[|name| - |e|..] == e
    ensures |e| == 4
  {
    var n := |name|;
    assert e[0] == name[n - |e|];
    assert forall i | n - |e| <= i < n :: name[i] == e[i - (n - |e|)];
    assert forall i | 1 <= i < |e| :: e[i] == e[1..][i - 1];
  }

  lemma AcceptedExactly(src: Source)
    ensures Accepted(src) <==> EndsIn(src.name, 'z', 'i', 'p') || EndsIn(src.name, 'j', 'a', 'r')
  {
    ExtEndsIn(src.name, 'z', 'i', 'p');
    ExtEndsIn(src.name, 'j', 'a', 'r');
    assert ".zip" == ['.', 'z', 'i', 'p'] && ".jar" == ['.', 'j', 'a', 'r'];
  }

  /** `c` is the name without the extension `ext`, the number `n` and `ext`. */
  ghost predicate NumberedFile(c: string, name: string, n: nat, ext: string) {
    exists base :: Stem(base, name, ext) && Numbered(c, base, n, ext)
  }

  lemma SuffixedFile(name: string, n: nat, ext: string)
    ensures NumberedFile(Suffixed(TrimSuffix(name, ext), n, ext), name, n, ext)
  {
    TrimSuffixExactly(name, ext);
    SuffixedIsNumbered(TrimSuffix(name, ext), n, ext);
  }

  /** The first candidate is the name; the others are the name without its extension, a
      number from 2 on, and the extension in lower case. */
  lemma FileCandidateIs(name: string, k: nat)
    ensures if k == 0 then FileCandidate(name, k) == name
            else NumberedFile(FileCandidate(name, k), name, k + 1, Lower(Ext(name)))
  {
    SuffixedFile(name, k + 1, Lower(Ext(name)));
  }

  /** An imported file keeps the kind of its source. */
  lemma CandidateIsAccepted(src: Source, k: nat)
    requires Accepted(src)
    ensures var c := FileCandidate(src.name, k); EndsIn(c, 'z', 'i', 'p') || EndsIn(c, 'j', 'a', 'r')
  {
    AcceptedExactly(src);
    if k > 0 {
      var ext := Lower(Ext(src.name));
      EndsInLower(TrimSuffix(src.name, ext) + "-" + Decimal(k + 1), ext[1], ext[2], ext[3]);
      assert ext == ['.', ext[1], ext[2], ext[3]];
    }
  }

  lemma EndsInLower(front: string, x: char, y: char, z: char)
    ensures EndsIn(front + ['.', x, y, z], x, y, z)
  {
  }

  /** A name is blocked by a file of that name or by its disabled twin. */
  predicate Blocked(files: map<string, Bytes>, name: string) {
    name in files || name + DISABLED in files
  }

  ghost function BlockedNames(files: map<string, Bytes>): set<string> {
    files.Keys + set f | f in files.Keys :: TrimSuffix(f, DISABLED)
  }

  lemma BlockedIsCounted(files: map<string, Bytes>, name: string)
    requires Blocked(files, name)
    ensures name in BlockedNames(files)
  {
    if name !in files {
      assert (name + DISABLED)[|name|..] == DISABLED;
      assert TrimSuffix(name + DISABLED, DISABLED) == name;
    }
  }

  lemma FileCandidatesDiffer(name: string, j: nat, k: nat)
    requires j < k
    ensures FileCandidate(name, j) != FileCandidate(name, k)
  {
    var ext := Lower(Ext(name));
    if j > 0 && FileCandidate(name, j) == FileCandidate(name, k) {
      SuffixedInjective(TrimSuffix(name, ext), j + 1, k + 1, ext);
    }
  }

  lemma {:induction false} FileTriesBounded(name: string, n: nat, taken: set<string>)
    requires forall k | 0 <= k < n :: FileCandidate(name, k) in taken
    ensures n <= |taken|
  {
    if n > 0 {
      var last := FileCandidate(name, n - 1);
      forall k | 0 <= k < n - 1 ensures FileCandidate(name, k) in taken - {last} {
        FileCandidatesDiffer(name, k, n - 1);
      }
      FileTriesBounded(name, n - 1, taken - {last});
    }
  }

  /** A search that failed `n` times has met `n` blocked names. */
  lemma FailedTriesBounded(files: map<string, Bytes>, name: string, n: nat)
    requires forall k | 0 <= k < n :: Blocked(files, FileCandidate(name, k))
    ensures n <= |BlockedNames(files)|
  {
    forall k | 0 <= k < n ensures FileCandidate(name, k) in BlockedNames(files) {
      BlockedIsCounted(files, FileCandidate(name, k));
    }
    FileTriesBounded(name, n, BlockedNames(files));
  }

  /** What happens when a file is copied: it works; the target cannot be created; or
      only the first `n` bytes are written. */
  datatype Copying = Works | NotCreated | Breaks(n: nat)

  /** A file chosen for import: its base name, its content if it can be opened, and what
      happens when it is copied. */
  datatype Source = Source(name: string, content: Option<Bytes>, copying: Copying)

  /** The file can be copied. */
  predicate Copies(src: Source) {
    src.content.Some? && src.copying == Works
  }

  /** One imported file: the source and the name it got. */
  datatype Placed = Placed(source: Source, dst: string)

  class ContentFolder {
    var files: map<string, Bytes>

    /** Copying can fail before or after the target was created; then the target
        may hold a part of the content. */
    method CopyFile(src: Source, dst: string) returns (ok: bool)
      modifies this
      ensures ok <==> Copies(src)
      ensures ok ==> files == old(files)[dst := src.content.value]
      ensures forall f | f in old(files) && f != dst :: f in files && files[f] == old(files)[f]
      ensures files.Keys <= old(files).Keys + {dst}
    {
      if src.content == None {
        return false;
      }
      match src.copying {
        case Works =>
          files := files[dst := src.content.value];
          return true;
        case NotCreated =>
          return false;
        case Breaks(n) =>
          files := files[dst := if n <= |src.content.value| then src.content.value[..n] else src.content.value];
          return false;
      }
    }

    /** The first candidate that neither exists nor has a disabled twin. */
    method FreeFile(name: string) returns (dst: string, ghost tries: nat)
      ensures !Blocked(files, dst) && dst !in files && dst + ".disabled" !in files
      ensures tries <= |BlockedNames(files)|
      ensures dst == FileCandidate(name, tries)
      ensures forall k | 0 <= k < tries :: Blocked(files, FileCandidate(name, k))
    {
      var ext := Lower(Ext(name));
      var base := TrimSuffix(name, ext);
      dst := name;
      var i := 2;
      while Blocked(files, dst)
        invariant i >= 2 && dst == FileCandidate(name, i - 2)
        invariant forall k | 0 <= k < i - 2 :: Blocked(files, FileCandidate(name, k))
        decreases |BlockedNames(files)| + 2 - i
      {
        FailedTriesBounded(files, name, i - 1);
        dst := Suffixed(base, i, ext);
        i := i + 1;
      }
      tries := i - 2;
      FailedTriesBounded(files, name, tries);
    }

    /** One file that has an accepted extension. */
    method ImportOne(src: Source) returns (ok: bool, dst: string)
      modifies this
      ensures !Blocked(old(files), dst) && IsCandidate(src.name, dst)
      ensures forall f | f in old(files) :: f in files && files[f] == old(files)[f]
      ensures files.Keys <= old(files).Keys + {dst}
      ensures ok <==> Copies(src)
      ensures ok ==> dst in files && files[dst] == src.content.value
    {
      ghost var tries;
      dst, tries := FreeFile(src.name);
      ok := CopyFile(src, dst);
    }

    /** No import replaces a file or revives a disabled one: what was in the folder
        stays as it was, every imported file is there under a name of its own
        with the content of its source, and neither that name nor its disabled
        twin was in use before. Every path is imported, skipped or failed: skipped
        exactly if it is not accepted, and failed exactly if it is accepted and cannot
        be copied. */
    method ImportContentFiles(paths: seq<Source>)
      returns (imported: seq<Placed>, skipped: seq<Source>, failed: seq<Source>)
      modifies this
      ensures Report(old(files), files, paths, imported, skipped, failed)
      ensures forall i | 0 <= i < |imported| ::
                imported[i].dst !in old(files) && imported[i].dst + ".disabled" !in old(files)
                && imported[i].source.content == Some(files[imported[i].dst])
    {
      imported, skipped, failed := [], [], [];
      for n := 0 to |paths|
        invariant Report(old(files), files, paths[..n], imported, skipped, failed)
      {
        var src := paths[n];
        assert paths[..n + 1] == paths[..n] + [src];
        ghost var before := files;
        if !Accepted(src) {
          SkippedReport(old(files), files, paths[..n], imported, skipped, failed, src);
          skipped := skipped + [src];
        } else {
          var ok, dst := ImportOne(src);
          if !ok {
            FailedReport(old(files), before, files, paths[..n], imported, skipped, failed, src, dst);
            failed := failed + [src];
          } else {
            ImportedReport(old(files), before, files, paths[..n], imported, skipped, failed, Placed(src, dst));
            imported := imported + [Placed(src, dst)];
          }
        }
      }
      assert paths[..|paths|] == paths;
    }
  }

  /** `dst` is the name itself or the name with a number. */
  ghost predicate IsCandidate(name: string, dst: string) {
    exists k: nat :: dst == FileCandidate(name, k)
  }

  /** Files that were not there before come from an accepted path, by name. */
  ghost predicate NewFromPaths(before: map<string, Bytes>, after: map<string, Bytes>, paths: seq<Source>) {
    forall f | f in after && f !in before :: FromPaths(paths, f)
  }

  ghost predicate FromPaths(paths: seq<Source>, f: string) {
    exists i :: 0 <= i < |paths| && Accepted(paths[i]) && IsCandidate(paths[i].name, f)
  }

  lemma FromMorePaths(paths: seq<Source>, s: Source, f: string)
    ensures FromPaths(paths, f) ==> FromPaths(paths + [s], f)
    ensures Accepted(s) && IsCandidate(s.name, f) ==> FromPaths(paths + [s], f)
  {
    var more := paths + [s];
    assert more[|paths|] == s;
    if FromPaths(paths, f) {
      var i :| 0 <= i < |paths| && Accepted(paths[i]) && IsCandidate(paths[i].name, f);
      assert more[i] == paths[i];
    }
  }

  lemma NewFromMorePaths(before: map<string, Bytes>, mid: map<string, Bytes>, after: map<string, Bytes>, paths: seq<Source>, s: Source, dst: string)
    requires NewFromPaths(before, mid, paths) && after.Keys <= mid.Keys + {dst}
    requires dst in mid || (Accepted(s) && IsCandidate(s.name, dst))
    ensures NewFromPaths(before, after, paths + [s])
  {
    forall f | f in after && f !in before ensures FromPaths(paths + [s], f) {
      FromMorePaths(paths, s, f);
    }
  }

  /** What is true of an import of `paths`. */
  ghost predicate Report(before: map<string, Bytes>, after: map<string, Bytes>, paths: seq<Source>,
                         imported: seq<Placed>, skipped: seq<Source>, failed: seq<Source>) {
    && Grew(before, after)
    && NewFromPaths(before, after, paths)
    && AllArrived(before, after, imported)
    && multiset(paths) == Sorted(imported, skipped, failed)
    && (forall s | s in skipped :: !Accepted(s))
    && (forall s | s in failed :: Accepted(s) && !Copies(s))
  }

  lemma SkippedReport(before: map<string, Bytes>, after: map<string, Bytes>, paths: seq<Source>,
                      imported: seq<Placed>, skipped: seq<Source>, failed: seq<Source>, s: Source)
    requires Report(before, after, paths, imported, skipped, failed) && !Accepted(s)
    ensures Report(before, after, paths + [s], imported, skipped + [s], failed)
  {
    forall f | f in after && f !in before ensures FromPaths(paths + [s], f) {
      FromMorePaths(paths, s, f);
    }
    SortedSnoc(imported, skipped, failed, s);
  }

  lemma FailedReport(before: map<string, Bytes>, mid: map<string, Bytes>, after: map<string, Bytes>, paths: seq<Source>,
                     imported: seq<Placed>, skipped: seq<Source>, failed: seq<Source>, s: Source, dst: string)
    requires Report(before, mid, paths, imported, skipped, failed) && Accepted(s) && !Copies(s) && Grew(mid, after)
    requires IsCandidate(s.name, dst) && after.Keys <= mid.Keys + {dst}
    ensures Report(before, after, paths + [s], imported, skipped, failed + [s])
  {
    NewFromMorePaths(before, mid, after, paths, s, dst);
    SortedSnoc(imported, skipped, failed, s);
  }

  lemma ImportedReport(before: map<string, Bytes>, mid: map<string, Bytes>, after: map<string, Bytes>, paths: seq<Source>,
                       imported: seq<Placed>, skipped: seq<Source>, failed: seq<Source>, p: Placed)
    requires Report(before, mid, paths, imported, skipped, failed) && Grew(mid, after)
    requires Accepted(p.source) && Copies(p.source) && !Blocked(mid, p.dst) && Arrived(after, p) && after.Keys <= mid.Keys + {p.dst}
    ensures Report(before, after, paths + [p.source], imported + [p], skipped, failed)
  {
    NewFromMorePaths(before, mid, after, paths, p.source, p.dst);
    SortedSnoc(imported, skipped, failed, p.source);
    OneMoreArrived(before, mid, after, imported, p);
    assert p == Placed(p.source, p.dst);
  }

  /** Nothing was lost or changed. */
  ghost predicate Grew(before: map<string, Bytes>, after: map<string, Bytes>) {
    forall f | f in before :: f in after && after[f] == before[f]
  }

  ghost predicate AllArrived(before: map<string, Bytes>, after: map<string, Bytes>, imported: seq<Placed>) {
    && (forall i | 0 <= i < |imported| ::
         Accepted(imported[i].source) && Copies(imported[i].source) && !Blocked(before, imported[i].dst) && Arrived(after, imported[i]))
    && forall i, j | 0 <= i < j < |imported| :: imported[i].dst != imported[j].dst
  }

  lemma OneMoreArrived(before: map<string, Bytes>, mid: map<string, Bytes>, after: map<string, Bytes>, imported: seq<Placed>, p: Placed)
    requires Grew(before, mid) && Grew(mid, after)
    requires AllArrived(before, mid, imported)
    requires Accepted(p.source) && Copies(p.source) && !Blocked(mid, p.dst) && Arrived(after, p)
    ensures AllArrived(before, after, imported + [p])
  {
  }

  /** All sources that were dealt with, as a bag. */
  function Sorted(imported: seq<Placed>, skipped: seq<Source>, failed: seq<Source>): multiset<Source> {
    multiset(seq(|imported|, i requires 0 <= i < |imported| => imported[i].source)) + multiset(skipped) + multiset(failed)
  }

  lemma SortedSnoc(imported: seq<Placed>, skipped: seq<Source>, failed: seq<Source>, s: Source)
    ensures Sorted(imported, skipped + [s], failed) == Sorted(imported, skipped, failed) + multiset{s}
    ensures Sorted(imported, skipped, failed + [s]) == Sorted(imported, skipped, failed) + multiset{s}
    ensures forall dst :: Sorted(imported + [Placed(s, dst)], skipped, failed) == Sorted(imported, skipped, failed) + multiset{s}
  {
    forall dst ensures Sorted(imported + [Placed(s, dst)], skipped, failed) == Sorted(imported, skipped, failed) + multiset{s} {
      var more := imported + [Placed(s, dst)];
      assert seq(|more|, i requires 0 <= i < |more| => more[i].source)
          == seq(|imported|, i requires 0 <= i < |imported| => imported[i].source) + [s];
    }
  }

  predicate Accepted(src: Source) {
    var ext := Lower(Ext(src.name));
    ext == ".zip" || ext == ".jar"
  }

  ghost predicate Arrived(files: map<string, Bytes>, p: Placed) {
    IsCandidate(p.source.name, p.dst) && p.source.content.Some? && p.dst in files && files[p.dst] == p.source.content.value
  }
}
