/** Canonical batch manifests: built from captured entries in any order, validated on receipt, and
    finalized once every file has its hash. */
module Manifest {
  import opened Common
  import opened Sequences
  import P = Paths

  const HARD_MAX_LOGICAL_BYTES: int := 100 * 1024 * 1024 * 1024 * 1024
  const MAX_FILES: nat := 100_000
  const MAX_DIRECTORIES: nat := 100_000
  const MAX_ENTRIES: nat := 200_000
  const MAX_MANIFEST_BYTES: nat := 16 * 1024 * 1024

  datatype HashState = Unhashed | Hashing | Verified | Changed | Invalid

  /** The source fingerprint is opaque; the index of a captured entry is not looked at. */
  datatype Entry = Entry(index: int, path: string, kind: P.PathKind, size: int, mtime: Option<int>, fingerprint: nat,
                         state: HashState, sha: Option<Digest>)

  datatype Manifest = Manifest(item: string, revision: int, digest: Digest, totalSize: int, fileCount: int, directoryCount: int, entries: seq<Entry>)

  datatype Limits = Limits(maxTotal: int, maxFile: int, maxFiles: nat, maxDirectories: nat, maxEntries: nat, maxBytes: nat)

  predicate LimitsOk(l: Limits) {
    && 0 <= l.maxTotal <= HARD_MAX_LOGICAL_BYTES && 0 <= l.maxFile <= HARD_MAX_LOGICAL_BYTES && l.maxFiles <= MAX_FILES
    && l.maxDirectories <= MAX_DIRECTORIES && l.maxEntries <= MAX_ENTRIES && l.maxBytes <= MAX_MANIFEST_BYTES
  }

  /** What identifies the content of one entry. */
  datatype IdentityEntry = IdentityEntry(path: string, kind: P.PathKind, size: int, sha: Option<Digest>)

  /** Letter case, the hash of a manifest without its digest, the length of its canonical text, and the
      hash of a list of identity entries. */
  datatype Host = Host(casing: P.Casing, hash: Manifest -> Digest, length: Manifest -> nat, identity: seq<IdentityEntry> -> Digest)

  datatype Fault = InvalidItem | InvalidEntry | InvalidPaths | NotCanonical | TooManyEntries | NotSorted | BadIndex | TooManyFiles
                 | TooManyDirectories | FileTooLarge | TotalTooLarge | CountsDiffer | DigestDiffers | TooLong
                 | HashesDiffer | HashConflict | RevisionExhausted | NotFinal

  predicate Uint(x: int) {
    0 <= x <= UINT64_MAX
  }

  predicate Alphanumeric(c: char) {
    'A' <= c <= 'Z' || 'a' <= c <= 'z' || '0' <= c <= '9'
  }

  predicate ItemOk(s: string) {
    0 < |s| <= 128 && Alphanumeric(s[0]) && forall i :: 0 < i < |s| ==> Alphanumeric(s[i]) || s[i] == '_' || s[i] == '-'
  }

  /** The checks of one entry. A directory has neither size nor hash, so it can never be verified. */
  predicate EntryOk(e: Entry) {
    && Uint(e.size) && (e.kind == P.Directory ==> e.size == 0 && e.sha.None?)
    && (e.state == Verified ==> e.sha.Some?) && (e.mtime.Some? ==> Uint(e.mtime.value))
  }

  // ---------------------------------------------------------------- the order of paths

  /** Code point order, which is also the byte order of the UTF-8 encodings. */
  predicate Before(p: string, q: string) {
    if q == "" then false
    else if p == "" then true
    else p[0] < q[0] || (p[0] == q[0] && Before(p[1..], q[1..]))
  }

  lemma {:induction false} BeforeIsStrict(p: string, q: string)
    ensures !(Before(p, q) && Before(q, p)) && !Before(p, p)
    ensures Before(p, q) || Before(q, p) || p == q
    decreases |p|
  {
    if p != "" {
      BeforeIsStrict(p[1..], p[1..]);
      if q != "" {
        BeforeIsStrict(p[1..], q[1..]);
        assert p == [p[0]] + p[1..] && q == [q[0]] + q[1..];
      }
    }
  }

  lemma {:induction false} BeforeTrans(p: string, q: string, r: string)
    requires Before(p, q) && Before(q, r)
    ensures Before(p, r)
    decreases |p|
  {
    if p != "" && p[0] == q[0] && q[0] == r[0] {
      BeforeTrans(p[1..], q[1..], r[1..]);
    }
  }

  ghost predicate AscendingBy<T>(es: seq<T>, path: T -> string) {
    forall i, j :: 0 <= i < j < |es| ==> Before(path(es[i]), path(es[j]))
  }

  function PathOf(e: Entry): string {
    e.path
  }

  ghost predicate Ascending(es: seq<Entry>) {
    forall i, j :: 0 <= i < j < |es| ==> Before(es[i].path, es[j].path)
  }

  function Insert(e: Entry, es: seq<Entry>): (r: seq<Entry>)
    ensures |r| == |es| + 1
  {
    if es == [] || Before(e.path, es[0].path) then [e] + es else [es[0]] + Insert(e, es[1..])
  }

  function SortByPath(es: seq<Entry>): (r: seq<Entry>)
    ensures |r| == |es|
  {
    if es == [] then [] else Insert(es[|es| - 1], SortByPath(es[..|es| - 1]))
  }

  ghost predicate DistinctPaths(es: seq<Entry>) {
    forall i, j :: 0 <= i < j < |es| ==> es[i].path != es[j].path
  }

  lemma {:induction false} InsertHas(e: Entry, es: seq<Entry>)
    ensures multiset(Insert(e, es)) == multiset(es) + multiset{e}
  {
    if es != [] && !Before(e.path, es[0].path) {
      InsertHas(e, es[1..]);
      assert es == [es[0]] + es[1..];
    }
  }

  lemma {:induction false} InsertAscends(e: Entry, es: seq<Entry>)
    requires Ascending(es) && forall x :: x in es ==> x.path != e.path
    ensures Ascending(Insert(e, es))
  {
    if es == [] {
    } else if Before(e.path, es[0].path) {
      forall j | 0 <= j < |es| ensures Before(e.path, es[j].path) {
        if j > 0 {
          BeforeTrans(e.path, es[0].path, es[j].path);
        }
      }
    } else {
      var rest := Insert(e, es[1..]);
      InsertAscends(e, es[1..]);
      InsertHas(e, es[1..]);
      BeforeIsStrict(e.path, es[0].path);
      forall j | 0 <= j < |rest| ensures Before(es[0].path, rest[j].path) {
        assert rest[j] in multiset(rest);
        assert rest[j] == e || rest[j] in es[1..];
      }
    }
  }

  lemma {:induction false} SortHas(es: seq<Entry>)
    ensures multiset(SortByPath(es)) == multiset(es)
  {
    if es != [] {
      SortHas(es[..|es| - 1]);
      InsertHas(es[|es| - 1], SortByPath(es[..|es| - 1]));
      assert es == es[..|es| - 1] + [es[|es| - 1]];
    }
  }

  lemma {:induction false} SortAscends(es: seq<Entry>)
    requires DistinctPaths(es)
    ensures Ascending(SortByPath(es))
  {
    if es != [] {
      var before := es[..|es| - 1];
      SortAscends(before);
      SortHas(before);
      forall x | x in SortByPath(before) ensures x.path != es[|es| - 1].path {
        assert x in multiset(SortByPath(before));
        var i :| 0 <= i < |before| && before[i] == x;
        assert es[i] == x;
      }
      InsertAscends(es[|es| - 1], SortByPath(before));
    }
  }

  /** Ascending lists with the same members are the same list. */
  lemma {:induction false} AscendingIsUnique<T>(es: seq<T>, fs: seq<T>, path: T -> string)
    requires AscendingBy(es, path) && AscendingBy(fs, path) && forall x :: x in es <==> x in fs
    ensures es == fs
  {
    assert es != [] ==> es[0] in es;
    assert fs != [] ==> fs[0] in fs;
    if es != [] {
      First(es, fs, path);
      forall x ensures x in es[1..] <==> x in fs[1..] {
        Later(es, x, path);
        Later(fs, x, path);
      }
      AscendingIsUnique(es[1..], fs[1..], path);
    }
  }

  lemma First<T>(es: seq<T>, fs: seq<T>, path: T -> string)
    requires AscendingBy(es, path) && AscendingBy(fs, path) && es != [] && fs != [] && es[0] in fs && fs[0] in es
    ensures es[0] == fs[0]
  {
    var i :| 0 <= i < |fs| && fs[i] == es[0];
    var j :| 0 <= j < |es| && es[j] == fs[0];
    BeforeIsStrict(path(es[0]), path(fs[0]));
  }

  lemma Later<T>(es: seq<T>, x: T, path: T -> string)
    requires AscendingBy(es, path) && es != []
    ensures x in es[1..] <==> x in es && x != es[0]
  {
    BeforeIsStrict(path(es[0]), path(es[0]));
    if x in es && x != es[0] {
      var i :| 0 <= i < |es| && es[i] == x;
      assert es[1..][i - 1] == x;
    }
  }

  // ---------------------------------------------------------------- validation

  function PathsOf(es: seq<Entry>): (r: seq<P.PathEntry>)
    ensures |r| == |es| && forall i :: 0 <= i < |es| ==> r[i] == P.PathEntry(es[i].path, es[i].kind)
  {
    seq(|es|, i requires 0 <= i < |es| => P.PathEntry(es[i].path, es[i].kind))
  }

  function Total(es: seq<Entry>): int {
    if es == [] then 0 else Total(es[..|es| - 1]) + es[|es| - 1].size
  }

  function FileCount(es: seq<Entry>): nat {
    if es == [] then 0 else FileCount(es[..|es| - 1]) + (if es[|es| - 1].kind == P.File then 1 else 0)
  }

  /** The caps on numbers and sizes. */
  ghost predicate WithinLimits(l: Limits, es: seq<Entry>) {
    && FileCount(es) <= l.maxFiles && |es| - FileCount(es) <= l.maxDirectories
    && (forall i :: 0 <= i < |es| && es[i].kind == P.File ==> es[i].size <= l.maxFile)
    && Total(es) <= l.maxTotal && Total(es) <= UINT64_MAX
  }

  /** Entries as they travel: canonical paths in order, numbered from zero. */
  ghost predicate WireOk(h: Host, l: Limits, es: seq<Entry>) {
    && |es| <= l.maxEntries && (forall i :: 0 <= i < |es| ==> EntryOk(es[i]) && es[i].index == i)
    && P.Acceptable(h.casing, PathsOf(es)) && (forall i :: 0 <= i < |es| ==> P.Canonical(h.casing, es[i].path) == Some(es[i].path))
    && Ascending(es) && WithinLimits(l, es)
  }

  /** The one manifest with these entries: its counts and its digest follow. */
  function Sealed(h: Host, item: string, revision: int, es: seq<Entry>): Manifest {
    var m := Manifest(item, revision, Digest(0), Total(es), FileCount(es), |es| - FileCount(es), es);
    m.(digest := h.hash(m))
  }

  ghost predicate ManifestOk(h: Host, l: Limits, m: Manifest) {
    ItemOk(m.item) && Uint(m.revision) && WireOk(h, l, m.entries) && m == Sealed(h, m.item, m.revision, m.entries) && h.length(m) <= l.maxBytes
  }

  // ---------------------------------------------------------------- what an accepted manifest is

  /** One text is before another: they agree up to a place where the first ends or has the smaller character. */
  ghost predicate Precedes(p: string, q: string) {
    exists k :: PartsAt(p, q, k)
  }

  ghost predicate PartsAt(p: string, q: string, k: nat) {
    k <= |p| && k < |q| && (forall i :: 0 <= i < k ==> p[i] == q[i]) && (k == |p| || p[k] < q[k])
  }

  lemma {:induction false} BeforeIs(p: string, q: string)
    ensures Before(p, q) <==> Precedes(p, q)
    decreases |p|
  {
    if p == "" || q == "" || p[0] != q[0] {
      assert q != "" && (p == "" || p[0] < q[0]) ==> PartsAt(p, q, 0);
    } else {
      BeforeIs(p[1..], q[1..]);
      if Precedes(p[1..], q[1..]) {
        var k: nat :| PartsAt(p[1..], q[1..], k);
        assert forall i :: 0 < i < k + 1 ==> p[i] == p[1..][i - 1] && q[i] == q[1..][i - 1];
        assert PartsAt(p, q, k + 1);
      }
      if Precedes(p, q) {
        var k: nat :| PartsAt(p, q, k);
        assert PartsAt(p[1..], q[1..], k - 1);
      }
    }
  }

  /** The places of the files. */
  ghost function Files(es: seq<Entry>): set<nat> {
    set i: nat | i < |es| && es[i].kind == P.File
  }

  lemma {:induction false} FileCountIs(es: seq<Entry>)
    ensures FileCount(es) == |Files(es)|
  {
    if es != [] {
      var n := |es| - 1;
      FileCountIs(es[..n]);
      assert forall i :: 0 <= i < n ==> es[..n][i] == es[i];
      assert Files(es) == if es[n].kind == P.File then Files(es[..n]) + {n} else Files(es[..n]);
    }
  }

  /** The sum of the sizes from the front. */
  ghost function SumOf(es: seq<Entry>): int {
    if es == [] then 0 else es[0].size + SumOf(es[1..])
  }

  lemma {:induction false} SumOfLast(es: seq<Entry>)
    requires es != []
    ensures SumOf(es) == SumOf(es[..|es| - 1]) + es[|es| - 1].size
  {
    if |es| > 1 {
      SumOfLast(es[1..]);
      assert es[1..][..|es| - 2] == es[..|es| - 1][1..];
    }
  }

  lemma {:induction false} TotalIs(es: seq<Entry>)
    ensures Total(es) == SumOf(es)
  {
    if es != [] {
      SumOfLast(es);
      TotalIs(es[..|es| - 1]);
    }
  }

  lemma ItemMeans(s: string)
    ensures ItemOk(s) <==> 0 < |s| <= 128 && forall i :: 0 <= i < |s| ==>
      'A' <= s[i] <= 'Z' || 'a' <= s[i] <= 'z' || '0' <= s[i] <= '9' || (i > 0 && s[i] in "_-")
  {
    assert forall c: char :: c in "_-" <==> c == '_' || c == '-';
  }

  /** Entries are acceptable paths in their canonical form exactly when they are plain paths that go together. */
  lemma PathsMean(casing: P.Casing, es: seq<Entry>)
    ensures P.Acceptable(casing, PathsOf(es)) && (forall i :: 0 <= i < |es| ==> P.Canonical(casing, es[i].path) == Some(es[i].path))
      <==> P.PairwiseOk(casing, PathsOf(es)) && forall i :: 0 <= i < |es| ==> P.PlainPath(casing, es[i].path)
  {
    hide P.Canonical, P.PlainPath, P.PairwiseOk, P.Turned;
    forall i | 0 <= i < |es| ensures P.Canonical(casing, es[i].path) == Some(es[i].path) <==> P.PlainPath(casing, es[i].path) {
      OwnForm(casing, es[i].path);
    }
    if forall i :: 0 <= i < |es| ==> P.Canonical(casing, es[i].path) == Some(es[i].path) {
      assert P.Canonicals(casing, PathsOf(es)) == PathsOf(es);
    }
  }

  lemma OwnForm(casing: P.Casing, path: string)
    ensures P.Canonical(casing, path) == Some(path) <==> P.PlainPath(casing, path)
  {
    hide P.Canonical;
    P.PlainOrNot(casing, path);
    if P.PlainPath(casing, path) {
      P.CanonicalExactly(casing, path, path);
    }
  }

  /** A manifest is accepted exactly when it has a well-formed item, plain paths that go together in strict
      order, numbered from zero, sizes, hashes and times as they may be, counts that are right and within
      the caps, and its own digest. */
  lemma AcceptedExactly(h: Host, l: Limits, m: Manifest)
    ensures ManifestOk(h, l, m) <==>
      && 0 < |m.item| <= 128 && 0 <= m.revision <= 0xFFFF_FFFF_FFFF_FFFF
      && (forall i :: 0 <= i < |m.item| ==>
            'A' <= m.item[i] <= 'Z' || 'a' <= m.item[i] <= 'z' || '0' <= m.item[i] <= '9' || (i > 0 && m.item[i] in "_-"))
      && (forall i :: 0 <= i < |m.entries| ==> var e := m.entries[i];
            && e.index == i && 0 <= e.size <= 0xFFFF_FFFF_FFFF_FFFF && P.PlainPath(h.casing, e.path)
            && (e.kind == P.Directory ==> e.size == 0 && e.sha.None? && e.state != Verified) && (e.state == Verified ==> e.sha.Some?)
            && (e.mtime.Some? ==> 0 <= e.mtime.value <= 0xFFFF_FFFF_FFFF_FFFF) && (e.kind == P.File ==> e.size <= l.maxFile))
      && (forall i, j :: 0 <= i < j < |m.entries| ==> Precedes(m.entries[i].path, m.entries[j].path))
      && P.PairwiseOk(h.casing, PathsOf(m.entries))
      && m.fileCount == |Files(m.entries)| <= l.maxFiles && m.directoryCount == |m.entries| - |Files(m.entries)| <= l.maxDirectories
      && |m.entries| <= l.maxEntries && m.totalSize == SumOf(m.entries) <= l.maxTotal && m.totalSize <= 0xFFFF_FFFF_FFFF_FFFF
      && m.digest == h.hash(m.(digest := Digest(0))) && h.length(m) <= l.maxBytes
  {
    hide P.Acceptable, P.PairwiseOk, P.Canonical, Before, P.PlainPath, Precedes, ItemOk;
    ItemMeans(m.item);
    PathsMean(h.casing, m.entries);
    FileCountIs(m.entries);
    TotalIs(m.entries);
    forall i, j | 0 <= i < j < |m.entries|
      ensures Before(m.entries[i].path, m.entries[j].path) <==> Precedes(m.entries[i].path, m.entries[j].path)
    {
      BeforeIs(m.entries[i].path, m.entries[j].path);
    }
    assert m == Sealed(h, m.item, m.revision, m.entries) <==>
      && m.totalSize == Total(m.entries) && m.fileCount == FileCount(m.entries) && m.directoryCount == |m.entries| - FileCount(m.entries)
      && m.digest == h.hash(m.(digest := Digest(0)));
  }

  lemma {:induction false} TotalGrows(es: seq<Entry>, n: nat)
    requires n <= |es| && forall i :: 0 <= i < |es| ==> es[i].size >= 0
    ensures 0 <= Total(es[..n]) <= Total(es)
    decreases |es|
  {
    if n < |es| {
      assert es[..|es| - 1][..n] == es[..n];
      TotalGrows(es[..|es| - 1], n);
    } else if es != [] {
      assert es[..n] == es;
      TotalGrows(es[..|es| - 1], |es| - 1);
      assert es[..|es| - 1][..|es| - 1] == es[..|es| - 1];
    }
  }

  /** Counts and sums, refusing as soon as a cap is passed. */
  method CheckLimits(l: Limits, es: seq<Entry>) returns (fault: Option<Fault>, total: int, files: nat)
    requires LimitsOk(l) && forall i :: 0 <= i < |es| ==> EntryOk(es[i])
    ensures fault.None? <==> WithinLimits(l, es)
    ensures fault.None? ==> total == Total(es) && files == FileCount(es)
  {
    hide EntryOk, Total, FileCount;
    files, total := 0, 0;
    SumsStart(es);
    for i := 0 to |es|
      invariant files == FileCount(es[..i])
    {
      SumsStep(es, i);
      files := files + (if es[i].kind == P.File then 1 else 0);
    }
    assert es[..|es|] == es;
    if files > l.maxFiles {
      return Some(TooManyFiles), total, files;
    }
    if |es| - files > l.maxDirectories {
      return Some(TooManyDirectories), total, files;
    }
    for i := 0 to |es|
      invariant total == Total(es[..i]) && total <= l.maxTotal && total <= UINT64_MAX
      invariant forall j :: 0 <= j < i && es[j].kind == P.File ==> es[j].size <= l.maxFile
    {
      if es[i].kind == P.File && es[i].size > l.maxFile {
        return Some(FileTooLarge), total, files;
      }
      SumsStep(es, i);
      total := total + es[i].size;
      SizesPositive(es);
      TotalGrows(es, i + 1);
      if total > UINT64_MAX || total > l.maxTotal {
        return Some(TotalTooLarge), total, files;
      }
    }
    fault := None;
  }

  lemma SumsStart(es: seq<Entry>)
    ensures Total(es[..0]) == 0 && FileCount(es[..0]) == 0
  {
  }

  lemma SumsStep(es: seq<Entry>, i: nat)
    requires i < |es|
    ensures Total(es[..i + 1]) == Total(es[..i]) + es[i].size
    ensures FileCount(es[..i + 1]) == FileCount(es[..i]) + (if es[i].kind == P.File then 1 else 0)
  {
    assert es[..i + 1][..i] == es[..i];
  }

  lemma SizesPositive(es: seq<Entry>)
    requires forall i :: 0 <= i < |es| ==> EntryOk(es[i])
    ensures forall i :: 0 <= i < |es| ==> es[i].size >= 0
  {
  }

  /** Validates entries in wire form. */
  method CheckWire(h: Host, l: Limits, es: seq<Entry>) returns (fault: Option<Fault>)
    requires LimitsOk(l) && P.KeepsSeparators(h.casing)
    ensures fault.None? <==> WireOk(h, l, es)
  {
    hide WithinLimits, P.Acceptable, P.Canonical;
    if |es| > l.maxEntries {
      return Some(TooManyEntries);
    }
    var i := 0;
    while i < |es|
      invariant 0 <= i <= |es| && forall j :: 0 <= j < i ==> EntryOk(es[j])
    {
      if !EntryOk(es[i]) {
        return Some(InvalidEntry);
      }
      i := i + 1;
    }
    var paths := P.ValidatePathEntries(h.casing, PathsOf(es));
    if paths.Err? {
      return Some(InvalidPaths);
    }
    i := 0;
    while i < |es|
      invariant 0 <= i <= |es| && forall j :: 0 <= j < i ==> P.Canonical(h.casing, es[j].path) == Some(es[j].path)
    {
      if es[i].path != paths.value[i] {
        return Some(NotCanonical);
      }
      i := i + 1;
    }
    AcceptedIsDistinct(h.casing, es);
    SortedIffSame(es);
    if es != SortByPath(es) {
      return Some(NotSorted);
    }
    i := 0;
    while i < |es|
      invariant 0 <= i <= |es| && forall j :: 0 <= j < i ==> es[j].index == j
    {
      if es[i].index != i {
        return Some(BadIndex);
      }
      i := i + 1;
    }
    var total, files;
    fault, total, files := CheckLimits(l, es);
  }

  lemma AcceptedIsDistinct(casing: P.Casing, es: seq<Entry>)
    requires P.Acceptable(casing, PathsOf(es)) && forall i :: 0 <= i < |es| ==> P.Canonical(casing, es[i].path) == Some(es[i].path)
    ensures DistinctPaths(es)
  {
    hide P.Canonical, P.Compatible;
    var all := P.Canonicals(casing, PathsOf(es));
    forall i, j | 0 <= i < j < |es| ensures es[i].path != es[j].path {
      assert all[i].path == es[i].path && all[j].path == es[j].path;
    }
  }

  /** Comparing with the sorted list tells whether a list without duplicates ascends. */
  lemma SortedIffSame(es: seq<Entry>)
    requires DistinctPaths(es)
    ensures es == SortByPath(es) <==> Ascending(es)
  {
    SortAscends(es);
    SortHas(es);
    if Ascending(es) {
      assert forall x :: x in es <==> x in multiset(es);
      assert forall x :: x in SortByPath(es) <==> x in multiset(SortByPath(es));
      AscendingIsUnique(es, SortByPath(es), PathOf);
    }
  }

  /** Accepts exactly the manifests that are their own canonical form, and returns them unchanged. */
  method ValidateManifest(h: Host, l: Limits, m: Manifest) returns (r: Result<Manifest, Fault>)
    requires LimitsOk(l) && P.KeepsSeparators(h.casing)
    ensures r.Ok? <==> ManifestOk(h, l, m)
    ensures r.Ok? ==> r.value == m
  {
    hide WireOk;
    if !ItemOk(m.item) || !Uint(m.revision) {
      return Err(InvalidItem);
    }
    var fault := CheckWire(h, l, m.entries);
    if fault.Some? {
      return Err(fault.value);
    }
    if m.totalSize != Total(m.entries) || m.fileCount != FileCount(m.entries) || m.directoryCount != |m.entries| - FileCount(m.entries) {
      return Err(CountsDiffer);
    }
    if m.digest != h.hash(m.(digest := Digest(0))) {
      return Err(DigestDiffers);
    }
    if h.length(m) > l.maxBytes {
      return Err(TooLong);
    }
    r := Ok(m);
  }

  // ---------------------------------------------------------------- building

  /** An entry in canonical spelling and not numbered yet. */
  function Canon(casing: P.Casing, e: Entry): Entry {
    var c := P.Canonical(casing, e.path);
    e.(index := 0, path := if c.Some? then c.value else e.path)
  }

  function Canons(casing: P.Casing, es: seq<Entry>): (r: seq<Entry>)
    ensures |r| == |es| && forall i :: 0 <= i < |es| ==> r[i] == Canon(casing, es[i])
  {
    seq(|es|, i requires 0 <= i < |es| => Canon(casing, es[i]))
  }

  function Numbered(es: seq<Entry>): (r: seq<Entry>)
    ensures |r| == |es| && forall i :: 0 <= i < |es| ==> r[i] == es[i].(index := i)
  {
    seq(|es|, i requires 0 <= i < |es| => es[i].(index := i))
  }

  function Prepared(h: Host, es: seq<Entry>): (r: seq<Entry>)
    ensures |r| == |es|
  {
    Numbered(SortByPath(Canons(h.casing, es)))
  }

  /** What may be captured: valid entries under paths that can stand side by side. */
  ghost predicate Capturable(h: Host, l: Limits, es: seq<Entry>) {
    |es| <= l.maxEntries && (forall e :: e in es ==> EntryOk(e)) && P.Acceptable(h.casing, PathsOf(es))
  }

  ghost predicate Buildable(h: Host, l: Limits, item: string, revision: int, es: seq<Entry>) {
    && ItemOk(item) && Uint(revision) && Capturable(h, l, es) && WithinLimits(l, Prepared(h, es))
    && h.length(Sealed(h, item, revision, Prepared(h, es))) <= l.maxBytes
  }

  lemma CanonsDistinct(casing: P.Casing, es: seq<Entry>)
    requires P.Acceptable(casing, PathsOf(es))
    ensures DistinctPaths(Canons(casing, es))
  {
    hide P.Canonical, P.Compatible;
    var all := P.Canonicals(casing, PathsOf(es));
    var cs := Canons(casing, es);
    forall i, j | 0 <= i < j < |es| ensures cs[i].path != cs[j].path {
      assert all[i].path == cs[i].path && all[j].path == cs[j].path;
    }
  }

  lemma {:induction false} SortPermutesPaths(es: seq<Entry>)
    ensures multiset(PathsOf(SortByPath(es))) == multiset(PathsOf(es))
  {
    if es != [] {
      var before, last := es[..|es| - 1], es[|es| - 1];
      SortPermutesPaths(before);
      InsertPermutesPaths(last, SortByPath(before));
      assert PathsOf(es) == PathsOf(before) + [P.PathEntry(last.path, last.kind)];
    }
  }

  lemma PathsCons(e: Entry, es: seq<Entry>)
    ensures PathsOf([e] + es) == [P.PathEntry(e.path, e.kind)] + PathsOf(es)
  {
  }

  lemma {:induction false} InsertPermutesPaths(e: Entry, es: seq<Entry>)
    ensures multiset(PathsOf(Insert(e, es))) == multiset(PathsOf(es)) + multiset{P.PathEntry(e.path, e.kind)}
  {
    hide PathsOf, Before;
    if es == [] || Before(e.path, es[0].path) {
      PathsCons(e, es);
    } else {
      InsertPermutesPaths(e, es[1..]);
      PathsCons(es[0], es[1..]);
      PathsCons(es[0], Insert(e, es[1..]));
      assert es == [es[0]] + es[1..];
    }
  }

  /** Canonical spellings of an acceptable set are an acceptable set. */
  lemma CanonsAcceptable(casing: P.Casing, es: seq<Entry>)
    requires P.Acceptable(casing, PathsOf(es))
    ensures P.Acceptable(casing, PathsOf(Canons(casing, es)))
    ensures forall e :: e in Canons(casing, es) ==> P.Canonical(casing, e.path) == Some(e.path)
  {
    hide P.Canonical, P.Compatible;
    var cs := Canons(casing, es);
    forall i | 0 <= i < |es| ensures P.Canonical(casing, cs[i].path) == Some(cs[i].path) {
      assert PathsOf(es)[i].path == es[i].path;
      P.CanonicalIsFixed(casing, es[i].path);
    }
    assert P.Canonicals(casing, PathsOf(cs)) == P.Canonicals(casing, PathsOf(es));
  }

  lemma PreparedMembers(h: Host, es: seq<Entry>)
    ensures forall e :: e in Prepared(h, es) ==> exists i :: 0 <= i < |es| && e.(index := 0) == Canon(h.casing, es[i])
  {
    var cs := Canons(h.casing, es);
    SortHas(cs);
    forall e | e in Prepared(h, es) ensures exists i :: 0 <= i < |es| && e.(index := 0) == Canon(h.casing, es[i]) {
      var k :| 0 <= k < |es| && Prepared(h, es)[k] == e;
      assert SortByPath(cs)[k] in multiset(SortByPath(cs));
      var i :| 0 <= i < |cs| && cs[i] == SortByPath(cs)[k];
    }
  }

  /** What is prepared from a capture is in wire form. */
  lemma PreparedIsWire(h: Host, l: Limits, es: seq<Entry>)
    requires Capturable(h, l, es) && WithinLimits(l, Prepared(h, es))
    ensures WireOk(h, l, Prepared(h, es))
  {
    hide P.Acceptable, P.Canonical, WithinLimits;
    var cs, ps := Canons(h.casing, es), Prepared(h, es);
    CanonsAcceptable(h.casing, es);
    CanonsDistinct(h.casing, es);
    SortPermutesPaths(cs);
    assert PathsOf(ps) == PathsOf(SortByPath(cs));
    P.OrderIndependent(h.casing, PathsOf(cs), PathsOf(ps));
    SortAscends(cs);
    SortHas(cs);
    PreparedMembers(h, es);
    forall i | 0 <= i < |ps| ensures EntryOk(ps[i]) && P.Canonical(h.casing, ps[i].path) == Some(ps[i].path) {
      assert ps[i] in ps;
      var k :| 0 <= k < |es| && ps[i].(index := 0) == Canon(h.casing, es[k]);
      assert es[k] in es && cs[k] in cs;
    }
  }

  /** Builds, sorts, numbers, counts, seals and validates. */
  method BuildManifest(h: Host, l: Limits, item: string, revision: int, es: seq<Entry>) returns (r: Result<Manifest, Fault>)
    requires LimitsOk(l) && P.KeepsSeparators(h.casing)
    ensures r.Ok? <==> Buildable(h, l, item, revision, es)
    ensures r.Ok? ==> r.value == Sealed(h, item, revision, Prepared(h, es)) && ManifestOk(h, l, r.value)
  {
    hide P.Acceptable, P.Canonical, WithinLimits, WireOk;
    if !ItemOk(item) || !Uint(revision) {
      return Err(InvalidItem);
    }
    if |es| > l.maxEntries {
      return Err(TooManyEntries);
    }
    var i := 0;
    while i < |es|
      invariant 0 <= i <= |es| && forall j :: 0 <= j < i ==> EntryOk(es[j])
    {
      if !EntryOk(es[i]) {
        return Err(InvalidEntry);
      }
      i := i + 1;
    }
    var paths := P.ValidatePathEntries(h.casing, PathsOf(es));
    if paths.Err? {
      return Err(InvalidPaths);
    }
    var prepared := Prepared(h, es);
    PreparedEntriesOk(h, es);
    var fault, total, files := CheckLimits(l, prepared);
    if fault.Some? {
      return Err(fault.value);
    }
    PreparedIsWire(h, l, es);
    var m := Manifest(item, revision, Digest(0), total, files, |prepared| - files, prepared);
    m := m.(digest := h.hash(m));
    SealedIsStable(h, m, item, revision, prepared);
    r := ValidateManifest(h, l, m);
  }

  lemma PreparedEntriesOk(h: Host, es: seq<Entry>)
    requires forall i :: 0 <= i < |es| ==> EntryOk(es[i])
    ensures forall i :: 0 <= i < |es| ==> EntryOk(Prepared(h, es)[i])
  {
    PreparedMembers(h, es);
    forall i | 0 <= i < |es| ensures EntryOk(Prepared(h, es)[i]) {
      assert Prepared(h, es)[i] in Prepared(h, es);
    }
  }

  lemma SealedIsStable(h: Host, m: Manifest, item: string, revision: int, es: seq<Entry>)
    requires m == Sealed(h, item, revision, es)
    ensures m == Sealed(h, m.item, m.revision, m.entries)
  {
  }

  /** The order in which entries were captured does not matter. */
  lemma BuildIsOrderIndependent(h: Host, l: Limits, item: string, revision: int, es: seq<Entry>, fs: seq<Entry>)
    requires multiset(es) == multiset(fs)
    ensures Buildable(h, l, item, revision, es) <==> Buildable(h, l, item, revision, fs)
    ensures Buildable(h, l, item, revision, es) ==> Sealed(h, item, revision, Prepared(h, es)) == Sealed(h, item, revision, Prepared(h, fs))
  {
    hide P.Acceptable, P.Canonical, WithinLimits, Sealed;
    SameMembers(es, fs);
    assert |es| == |multiset(es)| == |fs|;
    SamePaths(es, fs);
    P.OrderIndependent(h.casing, PathsOf(es), PathsOf(fs));
    if P.Acceptable(h.casing, PathsOf(es)) {
      PreparedFromMembers(h, es, fs);
    }
  }

  lemma PathsWithout(fs: seq<Entry>, k: nat)
    requires k < |fs|
    ensures multiset(PathsOf(fs)) == multiset(PathsOf(Without(fs, k))) + multiset{P.PathEntry(fs[k].path, fs[k].kind)}
  {
    WithoutOne(PathsOf(fs), k);
    assert PathsOf(Without(fs, k)) == Without(PathsOf(fs), k);
  }

  lemma {:induction false} SamePaths(es: seq<Entry>, fs: seq<Entry>)
    requires multiset(es) == multiset(fs)
    ensures multiset(PathsOf(es)) == multiset(PathsOf(fs))
    decreases |es|
  {
    hide PathsOf, Without;
    if es == [] {
      assert |multiset(fs)| == 0;
    } else {
      var k := MatchFirst(es, fs);
      PathsWithout(es, 0);
      PathsWithout(fs, k);
      SamePaths(Without(es, 0), Without(fs, k));
    }
  }

  lemma PreparedFromMembers(h: Host, es: seq<Entry>, fs: seq<Entry>)
    requires P.Acceptable(h.casing, PathsOf(es)) && P.Acceptable(h.casing, PathsOf(fs)) && |es| == |fs| && forall e :: e in es <==> e in fs
    ensures Prepared(h, es) == Prepared(h, fs)
  {
    hide P.Acceptable, Canon;
    var cs, ds := Canons(h.casing, es), Canons(h.casing, fs);
    CanonsDistinct(h.casing, es);
    CanonsDistinct(h.casing, fs);
    SortAscends(cs);
    SortAscends(ds);
    SortHas(cs);
    SortHas(ds);
    CanonMembers(h.casing, es);
    CanonMembers(h.casing, fs);
    forall x ensures x in SortByPath(cs) <==> x in SortByPath(ds) {
      assert x in SortByPath(cs) <==> x in multiset(SortByPath(cs));
      assert x in SortByPath(ds) <==> x in multiset(SortByPath(ds));
      assert x in cs <==> x in multiset(cs);
      assert x in ds <==> x in multiset(ds);
    }
    AscendingIsUnique(SortByPath(cs), SortByPath(ds), PathOf);
  }

  lemma CanonMembers(casing: P.Casing, es: seq<Entry>)
    ensures forall x :: x in Canons(casing, es) <==> exists e :: e in es && Canon(casing, e) == x
  {
    hide Canon;
    var cs := Canons(casing, es);
    forall x ensures x in cs <==> exists e :: e in es && Canon(casing, e) == x {
      if x in cs {
        var i :| 0 <= i < |cs| && cs[i] == x;
        assert es[i] in es;
      }
      if e :| e in es && Canon(casing, e) == x {
        var i :| 0 <= i < |es| && es[i] == e;
        assert cs[i] == x;
      }
    }
  }

  // ---------------------------------------------------------------- finalizing

  predicate AllVerified(es: seq<Entry>) {
    forall i :: 0 <= i < |es| && es[i].kind == P.File ==> es[i].state == Verified
  }

  function FileIndices(es: seq<Entry>): set<int> {
    set i | 0 <= i < |es| && es[i].kind == P.File
  }

  function WithHash(e: Entry, hashes: map<int, Digest>): Entry {
    if e.kind == P.File && e.index in hashes then e.(state := Verified, sha := Some(hashes[e.index])) else e
  }

  function WithHashes(es: seq<Entry>, hashes: map<int, Digest>): (r: seq<Entry>)
    ensures |r| == |es| && forall i :: 0 <= i < |es| ==> r[i] == WithHash(es[i], hashes)
  {
    seq(|es|, i requires 0 <= i < |es| => WithHash(es[i], hashes))
  }

  /** A verified file keeps its hash. */
  predicate Agreeing(es: seq<Entry>, hashes: map<int, Digest>) {
    forall i :: 0 <= i < |es| && es[i].kind == P.File && es[i].state == Verified ==> i in hashes && es[i].sha == Some(hashes[i])
  }

  function Finalized(h: Host, m: Manifest, hashes: map<int, Digest>): Manifest {
    if AllVerified(m.entries) then m else Sealed(h, m.item, m.revision + 1, WithHashes(m.entries, hashes))
  }

  ghost predicate Finalizable(h: Host, l: Limits, m: Manifest, hashes: map<int, Digest>) {
    && ManifestOk(h, l, m) && hashes.Keys == FileIndices(m.entries) && Agreeing(m.entries, hashes)
    && (!AllVerified(m.entries) ==> m.revision < UINT64_MAX && h.length(Finalized(h, m, hashes)) <= l.maxBytes)
  }

  lemma {:induction false} HashesKeepCounts(es: seq<Entry>, hashes: map<int, Digest>)
    ensures Total(WithHashes(es, hashes)) == Total(es) && FileCount(WithHashes(es, hashes)) == FileCount(es)
  {
    if es != [] {
      HashesKeepCounts(es[..|es| - 1], hashes);
      assert WithHashes(es, hashes)[..|es| - 1] == WithHashes(es[..|es| - 1], hashes);
    }
  }

  /** Putting hashes in changes nothing a validator looks at. */
  lemma HashesKeepWire(h: Host, l: Limits, es: seq<Entry>, hashes: map<int, Digest>)
    requires WireOk(h, l, es) && hashes.Keys == FileIndices(es)
    ensures WireOk(h, l, WithHashes(es, hashes)) && AllVerified(WithHashes(es, hashes))
  {
    hide P.Acceptable, P.Canonical;
    var out := WithHashes(es, hashes);
    HashesKeepCounts(es, hashes);
    assert PathsOf(out) == PathsOf(es);
    forall i | 0 <= i < |es| && es[i].kind == P.File ensures i in hashes {
      assert i in FileIndices(es);
    }
  }

  /** Checks the hashes against the manifest and fills them in. A manifest that has them all is returned
      as it is. */
  method FinalizeManifest(h: Host, l: Limits, m: Manifest, hashes: map<int, Digest>) returns (r: Result<Manifest, Fault>)
    requires LimitsOk(l) && P.KeepsSeparators(h.casing)
    ensures r.Ok? <==> Finalizable(h, l, m, hashes)
    ensures r.Ok? ==> r.value == Finalized(h, m, hashes) && ManifestOk(h, l, r.value)
  {
    hide P.Acceptable, P.Canonical, WithinLimits, WireOk, AllVerified, Agreeing, WithHashes, Total, FileCount, FileIndices, ItemOk;
    var validated := ValidateManifest(h, l, m);
    if validated.Err? {
      return validated;
    }
    if hashes.Keys != FileIndices(m.entries) {
      return Err(HashesDiffer);
    }
    assert WireOk(h, l, m.entries);
    var agreed, alreadyFinal := CheckHashes(h, l, m.entries, hashes);
    if !agreed {
      return Err(HashConflict);
    }
    if alreadyFinal {
      return Ok(m);
    }
    if m.revision == UINT64_MAX {
      return Err(RevisionExhausted);
    }
    var entries := FillHashes(h, l, m.entries, hashes);
    HashesKeepWire(h, l, m.entries, hashes);
    HashesKeepCounts(m.entries, hashes);
    var finalized := m.(revision := m.revision + 1, entries := entries);
    finalized := finalized.(digest := h.hash(finalized.(digest := Digest(0))));
    r := ValidateManifest(h, l, finalized);
  }

  method CheckHashes(h: Host, l: Limits, es: seq<Entry>, hashes: map<int, Digest>) returns (agreed: bool, alreadyFinal: bool)
    requires WireOk(h, l, es) && hashes.Keys == FileIndices(es)
    ensures agreed <==> Agreeing(es, hashes)
    ensures agreed ==> (alreadyFinal <==> AllVerified(es))
  {
    hide P.Acceptable, P.Canonical, WithinLimits, Ascending;
    alreadyFinal := true;
    var i := 0;
    while i < |es|
      invariant 0 <= i <= |es|
      invariant alreadyFinal <==> forall j :: 0 <= j < i && es[j].kind == P.File ==> es[j].state == Verified
      invariant forall j :: 0 <= j < i && es[j].kind == P.File && es[j].state == Verified ==> j in hashes && es[j].sha == Some(hashes[j])
    {
      if es[i].kind == P.File {
        assert i in FileIndices(es);
        if es[i].state == Verified {
          if es[i].sha != Some(hashes[es[i].index]) {
            return false, false;
          }
        } else {
          alreadyFinal := false;
        }
      }
      i := i + 1;
    }
    agreed := true;
  }

  method FillHashes(h: Host, l: Limits, es: seq<Entry>, hashes: map<int, Digest>) returns (entries: seq<Entry>)
    requires WireOk(h, l, es) && hashes.Keys == FileIndices(es)
    ensures entries == WithHashes(es, hashes)
  {
    hide P.Acceptable, P.Canonical, WithinLimits, Ascending;
    entries := es;
    var i := 0;
    while i < |entries|
      invariant 0 <= i <= |entries| == |es|
      invariant forall j :: 0 <= j < |entries| ==> entries[j] == if j < i then WithHash(es[j], hashes) else es[j]
    {
      if entries[i].kind == P.File {
        assert i in FileIndices(es);
        entries := entries[i := entries[i].(state := Verified, sha := Some(hashes[entries[i].index]))];
      }
      i := i + 1;
    }
  }

  /** Finalizing again with the same hashes changes nothing and with any other refuses; the revision
      rises by one exactly when some file had no verified hash. */
  lemma FinalizeOnce(h: Host, l: Limits, m: Manifest, hashes: map<int, Digest>, others: map<int, Digest>)
    requires Finalizable(h, l, m, hashes)
    ensures var f := Finalized(h, m, hashes);
            && AllVerified(f.entries) && f.item == m.item
            && f.revision == m.revision + (if exists i :: 0 <= i < |m.entries| && m.entries[i].kind == P.File && m.entries[i].state != Verified then 1 else 0)
            && Finalized(h, f, hashes) == f
            && (Finalizable(h, l, f, others) <==> others == hashes)
  {
    hide P.Acceptable, P.Canonical, WithinLimits, P.KeepsSeparators;
    var f := Finalized(h, m, hashes);
    if !AllVerified(m.entries) {
      HashesKeepWire(h, l, m.entries, hashes);
      SealedIsStable(h, f, m.item, m.revision + 1, WithHashes(m.entries, hashes));
    }
    assert FileIndices(f.entries) == FileIndices(m.entries);
    forall i | i in FileIndices(f.entries) ensures i in hashes && f.entries[i].sha == Some(hashes[i]) && f.entries[i].state == Verified {
      assert i in hashes.Keys;
    }
    OnlyThoseHashes(f.entries, hashes, others);
  }

  /** Entries that have their hashes agree with no other ones. */
  lemma OnlyThoseHashes(es: seq<Entry>, hashes: map<int, Digest>, others: map<int, Digest>)
    requires hashes.Keys == FileIndices(es)
    requires forall i :: i in FileIndices(es) ==> i in hashes && es[i].sha == Some(hashes[i]) && es[i].state == Verified
    ensures others.Keys == FileIndices(es) && Agreeing(es, others) <==> others == hashes
  {
    if others.Keys == FileIndices(es) && Agreeing(es, others) {
      forall i | i in others ensures others[i] == hashes[i] {
        assert i in FileIndices(es);
      }
      assert others == hashes;
    }
  }

  // ---------------------------------------------------------------- content identity

  function IdentityOf(e: Entry): IdentityEntry {
    IdentityEntry(e.path, e.kind, e.size, e.sha)
  }

  function IdentityEntries(es: seq<Entry>): (r: seq<IdentityEntry>)
    ensures |r| == |es| && forall i :: 0 <= i < |es| ==> r[i] == IdentityOf(es[i])
  {
    seq(|es|, i requires 0 <= i < |es| => IdentityOf(es[i]))
  }

  function IdentityPath(x: IdentityEntry): string {
    x.path
  }

  /** The identity of a finalized manifest, taken of path, type, size and hash of its entries only. */
  method ContentIdentity(h: Host, l: Limits, m: Manifest) returns (r: Result<Digest, Fault>)
    requires LimitsOk(l) && P.KeepsSeparators(h.casing)
    ensures r.Ok? <==> ManifestOk(h, l, m) && AllVerified(m.entries)
    ensures r.Ok? ==> r.value == h.identity(IdentityEntries(m.entries))
  {
    hide WireOk;
    var validated := ValidateManifest(h, l, m);
    if validated.Err? {
      return Err(validated.error);
    }
    var identity: seq<IdentityEntry> := [];
    var i := 0;
    while i < |m.entries|
      invariant 0 <= i <= |m.entries| && identity == IdentityEntries(m.entries[..i])
      invariant AllVerified(m.entries[..i])
    {
      var e := m.entries[i];
      WireEntry(h, l, m.entries, i);
      assert m.entries[..i + 1] == m.entries[..i] + [e];
      if e.kind == P.File && e.state != Verified {
        return Err(NotFinal);
      }
      identity := identity + [IdentityOf(e)];
      i := i + 1;
    }
    assert m.entries[..|m.entries|] == m.entries;
    r := Ok(h.identity(identity));
  }

  lemma WireEntry(h: Host, l: Limits, es: seq<Entry>, i: nat)
    requires WireOk(h, l, es) && i < |es|
    ensures EntryOk(es[i])
  {
  }

  /** Some entry of the capture has this content under this path. */
  ghost predicate Holds(casing: P.Casing, es: seq<Entry>, x: IdentityEntry) {
    exists e :: e in es && IdentityOf(Canon(casing, e)) == x
  }

  lemma IdentityMembers(h: Host, es: seq<Entry>)
    requires P.Acceptable(h.casing, PathsOf(es))
    ensures forall x :: x in IdentityEntries(Prepared(h, es)) <==> Holds(h.casing, es, x)
    ensures AscendingBy(IdentityEntries(Prepared(h, es)), IdentityPath)
  {
    hide P.Acceptable, Canon, IdentityOf;
    var cs, ps := Canons(h.casing, es), Prepared(h, es);
    var sorted, ids := SortByPath(cs), IdentityEntries(ps);
    CanonsDistinct(h.casing, es);
    SortAscends(cs);
    SortHas(cs);
    PreparedIdentity(h, es);
    forall x ensures x in ids <==> Holds(h.casing, es, x) {
      if x in ids {
        var k :| 0 <= k < |ids| && ids[k] == x;
        assert sorted[k] in multiset(sorted);
        var i :| 0 <= i < |cs| && cs[i] == sorted[k];
        assert es[i] in es;
      }
      if Holds(h.casing, es, x) {
        var e :| e in es && IdentityOf(Canon(h.casing, e)) == x;
        var i :| 0 <= i < |es| && es[i] == e;
        assert cs[i] in multiset(sorted);
        var k :| 0 <= k < |sorted| && sorted[k] == cs[i];
        assert ids[k] == x;
      }
    }
  }

  lemma PreparedIdentity(h: Host, es: seq<Entry>)
    requires Ascending(SortByPath(Canons(h.casing, es)))
    ensures IdentityEntries(Prepared(h, es)) == IdentityEntries(SortByPath(Canons(h.casing, es)))
    ensures AscendingBy(IdentityEntries(Prepared(h, es)), IdentityPath)
  {
    hide Canon, Before;
  }

  /** Two finalized manifests have the same identity exactly when they list the same content under the same
      paths: the item, the revision, times, fingerprints and numbering do not matter. */
  lemma IdentityIsContent(h: Host, l: Limits, m: Manifest, n: Manifest)
    requires ManifestOk(h, l, m) && AllVerified(m.entries) && ManifestOk(h, l, n) && AllVerified(n.entries)
    requires forall a: seq<IdentityEntry>, b: seq<IdentityEntry> :: h.identity(a) == h.identity(b) ==> a == b
    ensures h.identity(IdentityEntries(m.entries)) == h.identity(IdentityEntries(n.entries)) <==>
            forall x :: x in IdentityEntries(m.entries) <==> x in IdentityEntries(n.entries)
  {
    hide P.Acceptable, WithinLimits, Before, Sealed;
    var a, b := IdentityEntries(m.entries), IdentityEntries(n.entries);
    if forall x :: x in a <==> x in b {
      AscendingIsUnique(a, b, IdentityPath);
    }
  }

  /** A finalized manifest is valid and has every hash. */
  lemma FinalizedOk(h: Host, l: Limits, m: Manifest, hashes: map<int, Digest>)
    requires Finalizable(h, l, m, hashes)
    ensures ManifestOk(h, l, Finalized(h, m, hashes)) && AllVerified(Finalized(h, m, hashes).entries)
  {
    hide P.Acceptable, P.Canonical, WithinLimits, WireOk;
    if !AllVerified(m.entries) {
      assert WireOk(h, l, m.entries);
      HashesKeepWire(h, l, m.entries, hashes);
      SealedIsStable(h, Finalized(h, m, hashes), m.item, m.revision + 1, WithHashes(m.entries, hashes));
    }
  }

  /** What an entry is known as once its file has the hash `named` gives for its path. */
  function Filled(named: string -> Digest, x: IdentityEntry): IdentityEntry {
    x.(sha := if x.kind == P.File then Some(named(x.path)) else None)
  }

  /** The hashes given by number are those of the files under their paths. */
  predicate HashesBy(es: seq<Entry>, hashes: map<int, Digest>, named: string -> Digest) {
    forall i :: 0 <= i < |es| && i in hashes ==> hashes[i] == named(es[i].path)
  }

  lemma FilledEntries(h: Host, l: Limits, m: Manifest, hashes: map<int, Digest>, named: string -> Digest)
    requires Finalizable(h, l, m, hashes) && HashesBy(m.entries, hashes, named)
    ensures |Finalized(h, m, hashes).entries| == |m.entries|
    ensures forall i :: 0 <= i < |m.entries| ==> IdentityOf(Finalized(h, m, hashes).entries[i]) == Filled(named, IdentityOf(m.entries[i]))
  {
    hide P.Acceptable, P.Canonical, WithinLimits;
    forall i | 0 <= i < |m.entries|
      ensures IdentityOf(Finalized(h, m, hashes).entries[i]) == Filled(named, IdentityOf(m.entries[i]))
    {
      var e := m.entries[i];
      assert EntryOk(e) && e.index == i;
      assert e.kind == P.File ==> i in FileIndices(m.entries);
    }
  }

  /** Some entry of the capture, with its file's hash, is this. */
  ghost predicate HoldsFinal(casing: P.Casing, es: seq<Entry>, named: string -> Digest, x: IdentityEntry) {
    exists y :: Holds(casing, es, y) && Filled(named, y) == x
  }

  lemma FinalMembers(h: Host, l: Limits, item: string, revision: int, es: seq<Entry>, hashes: map<int, Digest>, named: string -> Digest)
    requires Buildable(h, l, item, revision, es)
    requires var m := Sealed(h, item, revision, Prepared(h, es)); Finalizable(h, l, m, hashes) && HashesBy(m.entries, hashes, named)
    ensures var f := Finalized(h, Sealed(h, item, revision, Prepared(h, es)), hashes);
      forall x :: x in IdentityEntries(f.entries) <==> HoldsFinal(h.casing, es, named, x)
  {
    hide P.Acceptable, WithinLimits, Prepared, Holds, HoldsFinal, Finalizable, Finalized, HashesBy, Filled, IdentityOf, Capturable;
    var m := Sealed(h, item, revision, Prepared(h, es));
    var f := Finalized(h, m, hashes);
    BuildableIsAcceptable(h, l, item, revision, es);
    IdentityMembers(h, es);
    FilledEntries(h, l, m, hashes, named);
    FilledMembers(h.casing, es, named, IdentityEntries(m.entries), IdentityEntries(f.entries));
  }

  lemma BuildableIsAcceptable(h: Host, l: Limits, item: string, revision: int, es: seq<Entry>)
    requires Buildable(h, l, item, revision, es)
    ensures P.Acceptable(h.casing, PathsOf(es))
  {
  }

  lemma FilledMembers(casing: P.Casing, es: seq<Entry>, named: string -> Digest, ids: seq<IdentityEntry>, done: seq<IdentityEntry>)
    requires |ids| == |done| && forall i :: 0 <= i < |ids| ==> done[i] == Filled(named, ids[i])
    requires forall x :: x in ids <==> Holds(casing, es, x)
    ensures forall x :: x in done <==> HoldsFinal(casing, es, named, x)
  {
    hide Holds, Filled;
    forall x ensures x in done <==> HoldsFinal(casing, es, named, x) {
      if x in done {
        var k :| 0 <= k < |done| && done[k] == x;
        assert ids[k] in ids;
      }
      if HoldsFinal(casing, es, named, x) {
        var y :| Holds(casing, es, y) && Filled(named, y) == x;
        assert y in ids;
        var k :| 0 <= k < |ids| && ids[k] == y;
        assert done[k] == x;
      }
    }
  }

  /** Two captures, built and finalized, have the same identity exactly when they hold the same content under
      the same paths: their order, the item, the revision, times, fingerprints and what was verified when
      they were captured do not matter. */
  lemma IdentityIgnoresCapture(h: Host, l: Limits, item: string, revision: int, es: seq<Entry>, hashes: map<int, Digest>, named: string -> Digest,
                               item': string, revision': int, fs: seq<Entry>, hashes': map<int, Digest>, named': string -> Digest)
    requires Buildable(h, l, item, revision, es) && Buildable(h, l, item', revision', fs)
    requires var m := Sealed(h, item, revision, Prepared(h, es)); Finalizable(h, l, m, hashes) && HashesBy(m.entries, hashes, named)
    requires var n := Sealed(h, item', revision', Prepared(h, fs)); Finalizable(h, l, n, hashes') && HashesBy(n.entries, hashes', named')
    requires forall a: seq<IdentityEntry>, b: seq<IdentityEntry> :: h.identity(a) == h.identity(b) ==> a == b
    ensures var f := Finalized(h, Sealed(h, item, revision, Prepared(h, es)), hashes);
            var g := Finalized(h, Sealed(h, item', revision', Prepared(h, fs)), hashes');
            && ManifestOk(h, l, f) && AllVerified(f.entries) && ManifestOk(h, l, g) && AllVerified(g.entries)
            && (h.identity(IdentityEntries(f.entries)) == h.identity(IdentityEntries(g.entries)) <==>
                forall x :: HoldsFinal(h.casing, es, named, x) <==> HoldsFinal(h.casing, fs, named', x))
  {
    hide P.Acceptable, WithinLimits, Buildable, Prepared, Holds, HoldsFinal, Finalizable, Finalized, Sealed, HashesBy, ManifestOk, AllVerified;
    var m, n := Sealed(h, item, revision, Prepared(h, es)), Sealed(h, item', revision', Prepared(h, fs));
    FinalMembers(h, l, item, revision, es, hashes, named);
    FinalMembers(h, l, item', revision', fs, hashes', named');
    FinalizedOk(h, l, m, hashes);
    FinalizedOk(h, l, n, hashes');
    IdentityIsContent(h, l, Finalized(h, m, hashes), Finalized(h, n, hashes'));
  }
}
