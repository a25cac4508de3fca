/** Paths a peer may send: their canonical form, and sets of them that a Windows directory tree can hold
    without two of them meeting. */
module Paths {
  import opened Common
  import opened Sequences

  const MAX_RELATIVE_PATH_BYTES: nat := 1024
  const MAX_COMPONENT_BYTES: nat := 255

  const INVALID_CHARS := {'<', '>', ':', '"', '|', '?', '*'}

  const RESERVED_NAMES: set<string> := {
    "CON", "PRN", "AUX", "NUL", "CLOCK$", "CONIN$", "CONOUT$",
    "COM1", "COM2", "COM3", "COM4", "COM5", "COM6", "COM7", "COM8", "COM9", "COM\U{00B9}", "COM\U{00B2}", "COM\U{00B3}",
    "LPT1", "LPT2", "LPT3", "LPT4", "LPT5", "LPT6", "LPT7", "LPT8", "LPT9", "LPT\U{00B9}", "LPT\U{00B2}", "LPT\U{00B3}" }

  datatype PathKind = File | Directory

  datatype PathEntry = PathEntry(path: string, kind: PathKind)

  /** The case mappings of the host language. */
  datatype Casing = Casing(lower: char -> string, upper: string -> string)

  /** Lower-casing neither removes nor creates a separator. */
  ghost predicate KeepsSeparators(casing: Casing) {
    forall c :: casing.lower(c) == "/" <==> c == '/'
  }

  // ---------------------------------------------------------------- one path

  function Slashed(c: char): char {
    if c == '\\' then '/' else c
  }

  function WithSlashes(s: string): (r: string)
    ensures |r| == |s| && forall i :: 0 <= i < |s| ==> r[i] == Slashed(s[i])
  {
    if s == [] then [] else WithSlashes(s[..|s| - 1]) + [Slashed(s[|s| - 1])]
  }

  /** The parts between separators; there is always at least one. */
  function Split(s: string): seq<string> {
    if s == [] then [[]]
    else
      var before := Split(s[..|s| - 1]);
      var last := s[|s| - 1];
      if last == '/' then before + [[]]
      else if before == [] then [[last]]
      else before[..|before| - 1] + [before[|before| - 1] + [last]]
  }

  function Utf8Size(s: string): nat {
    if s == [] then 0
    else
      var c := s[|s| - 1] as int;
      Utf8Size(s[..|s| - 1]) + (if c < 0x80 then 1 else if c < 0x800 then 2 else if c < 0x1_0000 then 3 else 4)
  }

  /** The size of a text is the sum of those of its characters, and each takes one to four bytes by its number. */
  lemma {:induction false} Utf8SizeIs(s: string, c: char, t: string)
    ensures Utf8Size(s + [c] + t) == Utf8Size(s) + (if c as int <= 127 then 1 else if c as int <= 2047 then 2 else if c as int <= 65535 then 3 else 4) + Utf8Size(t)
    decreases |t|
  {
    var all := s + [c] + t;
    if t == [] {
      assert all[..|all| - 1] == s;
    } else {
      Utf8SizeIs(s, c, t[..|t| - 1]);
      assert all[..|all| - 1] == s + [c] + t[..|t| - 1];
    }
  }

  function UpToDot(s: string): string {
    if s == [] || s[0] == '.' then [] else [s[0]] + UpToDot(s[1..])
  }

  function Trimmed(s: string): string {
    if s != [] && (s[|s| - 1] == ' ' || s[|s| - 1] == '.') then Trimmed(s[..|s| - 1]) else s
  }

  predicate ComponentOk(casing: Casing, c: string) {
    && c != "" && c != "." && c != ".."
    && (forall i :: 0 <= i < |c| ==> c[i] as int >= 32 && c[i] !in INVALID_CHARS)
    && c[|c| - 1] != '.' && c[|c| - 1] != ' '
    && Utf8Size(c) <= MAX_COMPONENT_BYTES
    && casing.upper(Trimmed(UpToDot(c))) !in RESERVED_NAMES
  }

  /** The canonical wire form of a path, if a Windows directory can hold it. */
  function Canonical(casing: Casing, path: string): Option<string> {
    if path == "" || '\0' in path || path[0] == '/' || path[0] == '\\' || (|path| > 1 && path[1] == ':') then None
    else
      var canonical := WithSlashes(path);
      if (forall c :: c in Split(canonical) ==> ComponentOk(casing, c)) && Utf8Size(canonical) <= MAX_RELATIVE_PATH_BYTES then Some(canonical)
      else None
  }

  /** A canonical path is its own canonical form. */
  lemma CanonicalIsFixed(casing: Casing, path: string)
    requires Canonical(casing, path).Some?
    ensures Canonical(casing, Canonical(casing, path).value) == Canonical(casing, path)
  {
    hide Split, Utf8Size, ComponentOk;
    var r := Canonical(casing, path).value;
    assert WithSlashes(r) == r;
    assert forall i :: 0 <= i < |r| && r[i] == '\0' ==> path[i] == '\0';
  }

  // ---------------------------------------------------------------- what a canonical path is

  /** A stretch between two separators, or between one and an end. */
  ghost predicate Part(s: string, a: int, b: int) {
    && 0 <= a <= b <= |s| && (a == 0 || s[a - 1] == '/') && (b == |s| || s[b] == '/')
    && forall i :: a <= i < b ==> s[i] != '/'
  }

  /** The stem of a name ends at e: before the first dot, and before the spaces in front of that. */
  ghost predicate StemEnds(c: string, e: int) {
    && 0 <= e <= |c| && (e == 0 || c[e - 1] != ' ') && (forall i :: 0 <= i < e ==> c[i] != '.')
    && exists f :: SpacesTo(c, e, f)
  }

  ghost predicate SpacesTo(c: string, e: int, f: int)
    requires 0 <= e
  {
    e <= f <= |c| && (f == |c| || c[f] == '.') && forall i :: e <= i < f ==> c[i] == ' '
  }

  /** What Windows takes for a device. */
  ghost predicate Device(name: string) {
    || name in {"CON", "PRN", "AUX", "NUL", "CLOCK$", "CONIN$", "CONOUT$"}
    || name in {"COM1", "COM2", "COM3", "COM4", "COM5", "COM6", "COM7", "COM8", "COM9", "COM\U{00B9}", "COM\U{00B2}", "COM\U{00B3}"}
    || name in {"LPT1", "LPT2", "LPT3", "LPT4", "LPT5", "LPT6", "LPT7", "LPT8", "LPT9", "LPT\U{00B9}", "LPT\U{00B2}", "LPT\U{00B3}"}
  }

  /** A name a directory can hold. */
  ghost predicate NameOk(casing: Casing, c: string) {
    && c != "" && c != "." && c != ".." && c[|c| - 1] != '.' && c[|c| - 1] != ' ' && Utf8Size(c) <= 255
    && forall e :: StemEnds(c, e) ==> !Device(casing.upper(c[..e]))
  }

  ghost predicate CharOk(c: char) {
    c as int >= 32 && c != '<' && c != '>' && c != ':' && c != '"' && c != '|' && c != '?' && c != '*' && c != '\\'
  }

  /** A path all of whose parts are such names: none is empty, so none leads or ends it, and no character
      starts a drive or stands for nothing. */
  ghost predicate PlainPath(casing: Casing, s: string) {
    && Utf8Size(s) <= 1024 && (forall i :: 0 <= i < |s| ==> CharOk(s[i]))
    && forall a, b :: Part(s, a, b) ==> NameOk(casing, s[a..b])
  }

  /** The same path, with every backslash turned. */
  ghost predicate Turned(path: string, s: string) {
    |s| == |path| && forall i :: 0 <= i < |path| ==> s[i] == if path[i] == '\\' then '/' else path[i]
  }

  /** A part of s that is its last one exactly when `last` is set. */
  ghost predicate IsPart(s: string, c: string, last: bool) {
    exists a, b :: Part(s, a, b) && s[a..b] == c && (b == |s| <==> last)
  }

  lemma GrownPart(s: string, c: string, wasLast: bool)
    requires s != [] && IsPart(s[..|s| - 1], c, wasLast)
    ensures if wasLast && s[|s| - 1] != '/' then IsPart(s, c + [s[|s| - 1]], true) else IsPart(s, c, false)
  {
    var n := |s| - 1;
    var a, b :| Part(s[..n], a, b) && s[..n][a..b] == c && (b == n <==> wasLast);
    assert s[..n][a..b] == s[a..b];
    if wasLast && s[n] != '/' {
      assert s[a..n + 1] == s[a..n] + [s[n]];
      assert Part(s, a, n + 1);
    } else {
      assert Part(s, a, b);
    }
  }

  lemma LastPart(s: string)
    requires s == [] || s[|s| - 1] == '/'
    ensures IsPart(s, [], true)
  {
    assert Part(s, |s|, |s|) && s[|s|..|s|] == [];
  }

  lemma EmptyPart(s: string)
    requires s == [] || s[0] == '/'
    ensures Part(s, 0, 0) && s[0..0] == []
  {
  }

  lemma {:induction false} SplitGivesParts(s: string)
    ensures Split(s) != [] && forall k :: 0 <= k < |Split(s)| ==> IsPart(s, Split(s)[k], k == |Split(s)| - 1)
  {
    hide IsPart;
    if s == [] {
      LastPart(s);
    } else {
      var before := Split(s[..|s| - 1]);
      SplitGivesParts(s[..|s| - 1]);
      forall k | 0 <= k < |Split(s)| ensures IsPart(s, Split(s)[k], k == |Split(s)| - 1) {
        if k == |before| {
          LastPart(s);
        } else {
          GrownPart(s, before[k], k == |before| - 1);
        }
      }
    }
  }

  lemma SplitStep(s: string)
    requires s != []
    ensures var before := Split(s[..|s| - 1]); var last := s[|s| - 1];
      && before != []
      && Split(s) == if last == '/' then before + [[]] else before[..|before| - 1] + [before[|before| - 1] + [last]]
  {
    SplitGivesParts(s[..|s| - 1]);
  }

  lemma ShorterLastPart(s: string, a: int)
    requires Part(s, a, |s|) && s != []
    ensures s[|s| - 1] == '/' ==> s[a..] == []
    ensures s[|s| - 1] != '/' ==> Part(s[..|s| - 1], a, |s| - 1) && s[..|s| - 1][a..] + [s[|s| - 1]] == s[a..]
  {
  }

  /** The part at the end is the last of the split. */
  lemma {:induction false} LastPartIs(s: string, a: int)
    requires Part(s, a, |s|)
    ensures Split(s) != [] && Split(s)[|Split(s)| - 1] == s[a..]
    decreases |s|
  {
    if s == [] {
      assert s[a..] == [];
    } else {
      SplitStep(s);
      ShorterLastPart(s, a);
      hide Split, Part;
      if s[|s| - 1] != '/' {
        LastPartIs(s[..|s| - 1], a);
      }
    }
  }

  /** Any other part is before it. */
  lemma {:induction false} PartBeforeLast(s: string, a: int, b: int)
    requires Part(s, a, b) && b < |s|
    ensures exists k :: 0 <= k < |Split(s)| - 1 && Split(s)[k] == s[a..b]
    decreases |s|
  {
    hide Split;
    SplitStep(s);
    var n := |s| - 1;
    var before := Split(s[..n]);
    assert s[..n][a..b] == s[a..b] && Part(s[..n], a, b);
    if b < n {
      PartBeforeLast(s[..n], a, b);
      var k :| 0 <= k < |before| - 1 && before[k] == s[..n][a..b];
      assert Split(s)[k] == before[k];
    } else {
      LastPartIs(s[..n], a);
      assert Split(s)[|before| - 1] == before[|before| - 1] == s[..n][a..];
    }
  }

  lemma PartsAreSplit(s: string, a: int, b: int)
    requires Part(s, a, b)
    ensures s[a..b] in Split(s)
  {
    hide Split;
    if b < |s| {
      PartBeforeLast(s, a, b);
    } else {
      LastPartIs(s, a);
      assert s[a..] == s[a..b];
    }
  }

  lemma {:induction false} UpToDotIs(c: string)
    ensures |UpToDot(c)| <= |c| && UpToDot(c) == c[..|UpToDot(c)|] && (|UpToDot(c)| == |c| || c[|UpToDot(c)|] == '.')
    ensures forall i :: 0 <= i < |UpToDot(c)| ==> c[i] != '.'
  {
    if c != [] && c[0] != '.' {
      UpToDotIs(c[1..]);
      assert c == [c[0]] + c[1..];
    }
  }

  lemma {:induction false} TrimmedIs(c: string)
    requires forall i :: 0 <= i < |c| ==> c[i] != '.'
    ensures |Trimmed(c)| <= |c| && Trimmed(c) == c[..|Trimmed(c)|] && (Trimmed(c) == [] || Trimmed(c)[|Trimmed(c)| - 1] != ' ')
    ensures forall i :: |Trimmed(c)| <= i < |c| ==> c[i] == ' '
  {
    if c != [] && c[|c| - 1] == ' ' {
      TrimmedIs(c[..|c| - 1]);
    } else {
      assert c == c[..|c|];
    }
  }

  /** There is one place where the stem ends, and the trimmed stem is what is before it. */
  lemma StemIs(c: string, e: int)
    ensures StemEnds(c, e) <==> e == |Trimmed(UpToDot(c))|
    ensures |Trimmed(UpToDot(c))| <= |c| && Trimmed(UpToDot(c)) == c[..|Trimmed(UpToDot(c))|]
  {
    UpToDotIs(c);
    var d := UpToDot(c);
    TrimmedIs(d);
    var t := Trimmed(d);
    assert t == c[..|t|];
    assert SpacesTo(c, |t|, |d|);
    if StemEnds(c, e) {
      var f :| SpacesTo(c, e, f);
      assert f == |d|;
    }
  }

  lemma ComponentIs(casing: Casing, c: string)
    ensures ComponentOk(casing, c) <==> NameOk(casing, c) && forall i :: 0 <= i < |c| ==> c[i] as int >= 32 && c[i] !in INVALID_CHARS
  {
    hide Utf8Size, StemEnds, Trimmed, UpToDot;
    var e := |Trimmed(UpToDot(c))|;
    StemIs(c, e);
    forall k | StemEnds(c, k) ensures k == e {
      StemIs(c, k);
    }
  }

  /** Every character of a path is a separator or inside a part. */
  lemma {:induction false} InSomePart(s: string, i: int) returns (a: int, b: int)
    requires 0 <= i < |s| && s[i] != '/'
    ensures Part(s, a, b) && a <= i < b
  {
    a, b := i, i + 1;
    while a > 0 && s[a - 1] != '/'
      invariant 0 <= a <= i && forall j :: a <= j <= i ==> s[j] != '/'
    {
      a := a - 1;
    }
    while b < |s| && s[b] != '/'
      invariant i < b <= |s| && forall j :: a <= j < b ==> s[j] != '/'
    {
      b := b + 1;
    }
  }

  /** A path is accepted exactly when it is a plain path once its backslashes are turned, and that is what
      it is accepted as. */
  lemma CanonicalExactly(casing: Casing, path: string, s: string)
    requires Turned(path, s)
    ensures Canonical(casing, path) == if PlainPath(casing, s) then Some(s) else None
  {
    hide Split, Utf8Size, ComponentOk, NameOk;
    assert WithSlashes(path) == s;
    SplitGivesParts(s);
    if Canonical(casing, path).Some? {
      AcceptedIsPlain(casing, s);
    } else if PlainPath(casing, s) {
      PlainIsAccepted(casing, s);
      assert s != "" && s[0] != '/' && forall i :: 0 <= i < |s| ==> CharOk(s[i]);
    }
  }

  lemma PlainOrNot(casing: Casing, path: string)
    ensures var r := Canonical(casing, path);
      if r.Some? then Turned(path, r.value) && PlainPath(casing, r.value) else forall s :: Turned(path, s) ==> !PlainPath(casing, s)
  {
    hide Canonical, PlainPath;
    assert Turned(path, WithSlashes(path));
    CanonicalExactly(casing, path, WithSlashes(path));
    forall s | Turned(path, s) ensures s == WithSlashes(path) {
    }
  }

  lemma AcceptedIsPlain(casing: Casing, s: string)
    requires '\\' !in s && Utf8Size(s) <= 1024 && forall c :: c in Split(s) ==> ComponentOk(casing, c)
    ensures PlainPath(casing, s)
  {
    hide Split, Utf8Size, ComponentOk, NameOk;
    forall a, b | Part(s, a, b) ensures NameOk(casing, s[a..b]) {
      PartsAreSplit(s, a, b);
      ComponentIs(casing, s[a..b]);
    }
    forall i | 0 <= i < |s| ensures CharOk(s[i]) {
      if s[i] != '/' {
        var a, b := InSomePart(s, i);
        PartsAreSplit(s, a, b);
        ComponentIs(casing, s[a..b]);
        assert s[a..b][i - a] == s[i];
      }
    }
  }

  lemma PlainIsAccepted(casing: Casing, s: string)
    requires PlainPath(casing, s)
    ensures s != "" && s[0] != '/' && forall c :: c in Split(s) ==> ComponentOk(casing, c)
  {
    hide Split, ComponentOk, PlainPath, IsPart;
    PlainIsRelative(casing, s);
    SplitGivesParts(s);
    forall c | c in Split(s) ensures ComponentOk(casing, c) {
      var k :| 0 <= k < |Split(s)| && Split(s)[k] == c;
      PlainPart(casing, s, c, k == |Split(s)| - 1);
    }
  }

  lemma PlainIsRelative(casing: Casing, s: string)
    requires PlainPath(casing, s)
    ensures s != "" && s[0] != '/'
  {
    if s == "" || s[0] == '/' {
      EmptyPart(s);
      assert false;
    }
  }

  lemma PlainPart(casing: Casing, s: string, c: string, last: bool)
    requires PlainPath(casing, s) && IsPart(s, c, last)
    ensures ComponentOk(casing, c)
  {
    hide ComponentOk, NameOk;
    var a, b :| Part(s, a, b) && s[a..b] == c;
    ComponentIs(casing, c);
    forall i | 0 <= i < |c| ensures c[i] as int >= 32 && c[i] !in INVALID_CHARS {
      assert CharOk(s[a + i]);
    }
  }

  // ---------------------------------------------------------------- collision keys

  /** Case is ignored character by character, never across characters. */
  function Folded(casing: Casing, c: char): char {
    var l := casing.lower(Slashed(c));
    if |l| == 1 then l[0] else Slashed(c)
  }

  function Key(casing: Casing, s: string): (k: string)
    ensures |k| == |s| && forall i :: 0 <= i < |s| ==> k[i] == Folded(casing, s[i])
  {
    seq(|s|, i requires 0 <= i < |s| => Folded(casing, s[i]))
  }

  method WindowsCollisionKey(casing: Casing, value: string) returns (key: string)
    ensures key == Key(casing, value)
  {
    key := [];
    var slashed := WithSlashes(value);
    for i := 0 to |slashed|
      invariant |key| == i && forall j :: 0 <= j < i ==> key[j] == Folded(casing, value[j])
    {
      var candidate := casing.lower(slashed[i]);
      key := key + [if |candidate| == 1 then candidate[0] else slashed[i]];
    }
  }

  /** The ends of the leading parts of a path: its separators and its own end. */
  predicate Cut(s: string, k: int) {
    0 < k <= |s| && (k == |s| || s[k] == '/')
  }

  /** These are the ends of its parts. */
  lemma CutsAreEnds(s: string, k: int)
    requires k > 0
    ensures Cut(s, k) <==> exists a :: 0 <= a <= k && Part(s, a, k)
  {
    if Cut(s, k) {
      var a := k;
      while a > 0 && s[a - 1] != '/'
        invariant 0 <= a <= k <= |s| && forall i :: a <= i < k ==> s[i] != '/'
      {
        a := a - 1;
      }
      assert Part(s, a, k);
    }
  }

  /** A path and its key have the same parts. */
  lemma SameCuts(casing: Casing, s: string, k: int)
    requires KeepsSeparators(casing) && '\\' !in s
    ensures Cut(Key(casing, s), k) <==> Cut(s, k)
  {
    if 0 < k < |s| {
      var l := casing.lower(s[k]);
      assert s[k] != '\\';
      if |l| == 1 {
        assert l == [l[0]];
      }
    }
  }

  // ---------------------------------------------------------------- the rule for a set of paths

  predicate AlikeAt(casing: Casing, p: string, q: string, k: int) {
    0 < k <= |p| && k <= |q| && Cut(p, k) && Cut(q, k) && Key(casing, p)[..k] == Key(casing, q)[..k] ==> p[..k] == q[..k]
  }

  /** Wherever the keys of two paths agree on a leading part, the paths spell it alike. */
  predicate SpelledAlike(casing: Casing, p: string, q: string) {
    forall k :: 0 < k < |q| + 1 ==> AlikeAt(casing, p, q, k)
  }

  /** The first path is not a directory above the second. */
  predicate NotAbove(casing: Casing, p: string, q: string) {
    !(|p| < |q| && Cut(q, |p|) && Key(casing, q)[..|p|] == Key(casing, p))
  }

  /** Two entries can stand side by side: no two spellings of one name, not the same path, and no file
      above the other. */
  predicate Compatible(casing: Casing, a: PathEntry, b: PathEntry) {
    && SpelledAlike(casing, a.path, b.path)
    && (a.kind == File ==> NotAbove(casing, a.path, b.path))
    && (b.kind == File ==> NotAbove(casing, b.path, a.path))
  }

  ghost predicate PairwiseOk(casing: Casing, es: seq<PathEntry>) {
    forall i, j :: 0 <= i < j < |es| ==> es[i].path != es[j].path && Compatible(casing, es[i], es[j])
  }

  /** A set of entries is acceptable when every path is and all pairs are, in their canonical forms. */
  ghost predicate Acceptable(casing: Casing, es: seq<PathEntry>) {
    && (forall i :: 0 <= i < |es| ==> Canonical(casing, es[i].path).Some?)
    && PairwiseOk(casing, Canonicals(casing, es))
  }

  function CanonicalEntry(casing: Casing, e: PathEntry): PathEntry {
    var c := Canonical(casing, e.path);
    if c.Some? then e.(path := c.value) else e
  }

  function Canonicals(casing: Casing, es: seq<PathEntry>): (r: seq<PathEntry>)
    ensures |r| == |es| && forall i :: 0 <= i < |es| ==> r[i] == CanonicalEntry(casing, es[i])
  {
    seq(|es|, i requires 0 <= i < |es| => CanonicalEntry(casing, es[i]))
  }

  // ---------------------------------------------------------------- one pass over the set

  datatype PathFault = NotCanonical(index: nat) | CaseCollision | Duplicate | FileAbove

  /** The leading parts seen so far, each with its spelling. */
  ghost predicate KnownPrefixes(casing: Casing, done: seq<PathEntry>, prefixes: map<string, string>) {
    && (forall i, k :: 0 <= i < |done| && Cut(done[i].path, k) ==> Key(casing, done[i].path)[..k] in prefixes && prefixes[Key(casing, done[i].path)[..k]] == done[i].path[..k])
    && (forall x :: x in prefixes ==> exists i, k :: 0 <= i < |done| && Cut(done[i].path, k) && Key(casing, done[i].path)[..k] == x)
  }

  /** The whole paths seen so far, each under its key. */
  ghost predicate KnownPaths(casing: Casing, done: seq<PathEntry>, byKey: map<string, PathEntry>) {
    && (forall i :: 0 <= i < |done| ==> Key(casing, done[i].path) in byKey && byKey[Key(casing, done[i].path)] == done[i])
    && (forall x :: x in byKey ==> exists i :: 0 <= i < |done| && Key(casing, done[i].path) == x && byKey[x] == done[i])
  }

  /** So far no name is spelled in two ways and no path occurs twice. */
  ghost predicate Distinct(casing: Casing, es: seq<PathEntry>) {
    forall i, j :: 0 <= i < j < |es| ==> es[i].path != es[j].path && SpelledAlike(casing, es[i].path, es[j].path)
  }

  ghost predicate Entered(casing: Casing, path: string, prefixes: map<string, string>, next: map<string, string>) {
    && (forall k :: Cut(path, k) ==> Key(casing, path)[..k] in next && next[Key(casing, path)[..k]] == path[..k])
    && (forall x :: x in next <==> x in prefixes || exists k :: Cut(path, k) && Key(casing, path)[..k] == x)
    && (forall x :: x in prefixes ==> next[x] == prefixes[x])
  }

  /** The same for the leading parts that end before a position. */
  ghost predicate EnteredBelow(casing: Casing, path: string, prefixes: map<string, string>, next: map<string, string>, end: int) {
    && (forall k :: 0 < k < end && Cut(path, k) ==> Key(casing, path)[..k] in next && next[Key(casing, path)[..k]] == path[..k])
    && (forall x :: x in next <==> x in prefixes || exists k :: 0 < k < end && Cut(path, k) && Key(casing, path)[..k] == x)
    && (forall x :: x in prefixes ==> next[x] == prefixes[x])
  }

  ghost predicate AlikeBelow(casing: Casing, done: seq<PathEntry>, path: string, end: int) {
    forall i, k :: 0 <= i < |done| && 0 < k < end ==> AlikeAt(casing, done[i].path, path, k)
  }

  /** A leading part met for the first time, or known in the same spelling. */
  lemma EnterOne(casing: Casing, done: seq<PathEntry>, path: string, prefixes: map<string, string>, next: map<string, string>, end: nat)
    requires KnownPrefixes(casing, done, prefixes) && EnteredBelow(casing, path, prefixes, next, end) && 0 < end && Cut(path, end)
    ensures var x := Key(casing, path)[..end];
            && (x in next ==> x in prefixes && next[x] == prefixes[x])
            && (x !in next ==> EnteredBelow(casing, path, prefixes, next[x := path[..end]], end + 1))
            && (x in next && next[x] == path[..end] ==> EnteredBelow(casing, path, prefixes, next, end + 1))
  {
    var x := Key(casing, path)[..end];
    assert forall k :: 0 < k < end && Cut(path, k) ==> |Key(casing, path)[..k]| != |x|;
  }

  lemma SkipOne(casing: Casing, path: string, prefixes: map<string, string>, next: map<string, string>, end: nat)
    requires EnteredBelow(casing, path, prefixes, next, end) && !Cut(path, end)
    ensures EnteredBelow(casing, path, prefixes, next, end + 1)
  {
  }

  /** All earlier paths spell a leading part as the dictionary does. */
  lemma AlikeOne(casing: Casing, done: seq<PathEntry>, path: string, prefixes: map<string, string>, end: nat)
    requires KnownPrefixes(casing, done, prefixes) && 0 < end && Cut(path, end)
    ensures var x := Key(casing, path)[..end];
            (x in prefixes ==> prefixes[x] == path[..end]) <==> forall i :: 0 <= i < |done| ==> AlikeAt(casing, done[i].path, path, end)
  {
    var x := Key(casing, path)[..end];
    if x in prefixes && prefixes[x] != path[..end] {
      var i, k :| 0 <= i < |done| && Cut(done[i].path, k) && Key(casing, done[i].path)[..k] == x;
      assert |Key(casing, done[i].path)[..k]| == k == end;
      assert !AlikeAt(casing, done[i].path, path, end);
    }
  }

  lemma AllAlike(casing: Casing, done: seq<PathEntry>, path: string)
    ensures AlikeBelow(casing, done, path, |path| + 1) <==> forall i :: 0 <= i < |done| ==> SpelledAlike(casing, done[i].path, path)
  {
    hide AlikeAt;
  }

  lemma AllEntered(casing: Casing, path: string, prefixes: map<string, string>, next: map<string, string>)
    requires EnteredBelow(casing, path, prefixes, next, |path| + 1)
    ensures Entered(casing, path, prefixes, next)
  {
  }

  lemma NothingEntered(casing: Casing, path: string, prefixes: map<string, string>)
    ensures EnteredBelow(casing, path, prefixes, prefixes, 1)
  {
  }

  /** Enters the leading parts of one path. Another spelling of one of them is a collision. */
  method EnterPrefixes(casing: Casing, ghost done: seq<PathEntry>, path: string, prefixes: map<string, string>) returns (ok: bool, next: map<string, string>)
    requires KnownPrefixes(casing, done, prefixes)
    ensures ok <==> forall i :: 0 <= i < |done| ==> SpelledAlike(casing, done[i].path, path)
    ensures ok ==> Entered(casing, path, prefixes, next)
  {
    hide KnownPrefixes, EnteredBelow, Entered, SpelledAlike, AlikeAt, Key;
    var key := WindowsCollisionKey(casing, path);
    next := prefixes;
    NothingEntered(casing, path, prefixes);
    AllAlike(casing, done, path);
    var end := 1;
    while end <= |path|
      invariant 1 <= end <= |path| + 1
      invariant EnteredBelow(casing, path, prefixes, next, end) && AlikeBelow(casing, done, path, end)
    {
      if Cut(path, end) {
        var prefix, windowsPrefix := path[..end], key[..end];
        EnterOne(casing, done, path, prefixes, next, end);
        AlikeOne(casing, done, path, prefixes, end);
        if windowsPrefix !in next {
          Absent(casing, path, prefixes, next, end);
          next := next[windowsPrefix := prefix];
        } else if next[windowsPrefix] != prefix {
          return false, next;
        }
      } else {
        SkipOne(casing, path, prefixes, next, end);
        NotCutAlike(casing, done, path, end);
      }
      end := end + 1;
    }
    AllEntered(casing, path, prefixes, next);
    ok := true;
  }

  lemma Absent(casing: Casing, path: string, prefixes: map<string, string>, next: map<string, string>, end: int)
    requires EnteredBelow(casing, path, prefixes, next, end)
    ensures forall x :: x in prefixes ==> x in next
  {
  }

  lemma NotCutAlike(casing: Casing, done: seq<PathEntry>, path: string, end: int)
    requires !Cut(path, end)
    ensures forall i :: 0 <= i < |done| ==> AlikeAt(casing, done[i].path, path, end)
  {
  }

  lemma NotDistinct(casing: Casing, all: seq<PathEntry>, n: nat)
    requires n < |all| && exists i :: 0 <= i < n && !SpelledAlike(casing, all[i].path, all[n].path)
    ensures !PairwiseOk(casing, all)
  {
    var i :| 0 <= i < n && !SpelledAlike(casing, all[i].path, all[n].path);
    assert !Compatible(casing, all[i], all[n]);
  }

  lemma SameKeySamePath(casing: Casing, all: seq<PathEntry>, n: nat, byKey: map<string, PathEntry>)
    requires n < |all| && KnownPaths(casing, all[..n], byKey) && Key(casing, all[n].path) in byKey && all[n].path != ""
    requires forall i :: 0 <= i < n ==> SpelledAlike(casing, all[i].path, all[n].path)
    ensures !PairwiseOk(casing, all)
  {
    var i :| 0 <= i < n && Key(casing, all[..n][i].path) == Key(casing, all[n].path);
    var k := |all[n].path|;
    assert |all[i].path| == |Key(casing, all[i].path)| == k;
    assert Cut(all[i].path, k) && Cut(all[n].path, k);
    assert AlikeAt(casing, all[i].path, all[n].path, k);
    assert all[i].path[..k] == all[n].path[..k];
    assert all[i].path == all[n].path;
  }

  lemma OneMorePrefix(casing: Casing, all: seq<PathEntry>, n: nat, prefixes: map<string, string>, next: map<string, string>)
    requires n < |all| && KnownPrefixes(casing, all[..n], prefixes) && Entered(casing, all[n].path, prefixes, next)
    requires forall i :: 0 <= i < n ==> SpelledAlike(casing, all[i].path, all[n].path)
    ensures KnownPrefixes(casing, all[..n + 1], next)
  {
    hide SpelledAlike;
    var some, more := all[..n], all[..n + 1];
    assert forall i :: 0 <= i < n ==> more[i] == some[i];
    forall x | x in next ensures exists i, k :: 0 <= i < |more| && Cut(more[i].path, k) && Key(casing, more[i].path)[..k] == x {
      if x in prefixes {
        var i, k :| 0 <= i < |some| && Cut(some[i].path, k) && Key(casing, some[i].path)[..k] == x;
        assert more[i] == some[i];
      } else {
        var k :| Cut(all[n].path, k) && Key(casing, all[n].path)[..k] == x;
        assert more[n] == all[n];
      }
    }
    forall i, k | 0 <= i < |more| && Cut(more[i].path, k)
      ensures Key(casing, more[i].path)[..k] in next && next[Key(casing, more[i].path)[..k]] == more[i].path[..k]
    {
      if i < n {
        assert more[i] == some[i];
      }
    }
  }

  lemma OneMorePath(casing: Casing, all: seq<PathEntry>, n: nat, byKey: map<string, PathEntry>)
    requires n < |all| && KnownPaths(casing, all[..n], byKey) && Distinct(casing, all[..n]) && Key(casing, all[n].path) !in byKey
    requires forall i :: 0 <= i < n ==> SpelledAlike(casing, all[i].path, all[n].path)
    ensures KnownPaths(casing, all[..n + 1], byKey[Key(casing, all[n].path) := all[n]]) && Distinct(casing, all[..n + 1])
  {
    hide SpelledAlike, Key, Cut;
    var some, more := all[..n], all[..n + 1];
    assert forall i :: 0 <= i < n ==> more[i] == some[i];
    assert more[n] == all[n];
    forall x | x in byKey ensures exists i :: 0 <= i < |more| && Key(casing, more[i].path) == x && byKey[x] == more[i] {
      var i :| 0 <= i < |some| && Key(casing, some[i].path) == x && byKey[x] == some[i];
      assert more[i] == some[i];
    }
    forall i | 0 <= i < n ensures more[i].path != more[n].path {
      assert Key(casing, some[i].path) in byKey;
    }
  }

  lemma FileFound(casing: Casing, all: seq<PathEntry>, byKey: map<string, PathEntry>, n: nat, end: nat)
    requires KeepsSeparators(casing) && n < |all| && KnownPaths(casing, all, byKey) && '\\' !in all[n].path
    requires 0 < end < |all[n].path| && Cut(Key(casing, all[n].path), end)
    requires var x := Key(casing, all[n].path)[..end]; x in byKey && byKey[x].kind == File
    ensures !PairwiseOk(casing, all)
  {
    var x := Key(casing, all[n].path)[..end];
    var i :| 0 <= i < |all| && Key(casing, all[i].path) == x && byKey[x] == all[i];
    assert |all[i].path| == end;
    SameCuts(casing, all[n].path, end);
    assert !NotAbove(casing, all[i].path, all[n].path);
    assert !Compatible(casing, all[i], all[n]) && !Compatible(casing, all[n], all[i]);
  }

  lemma NoFileAt(casing: Casing, all: seq<PathEntry>, byKey: map<string, PathEntry>, n: nat, end: nat)
    requires KeepsSeparators(casing) && n < |all| && KnownPaths(casing, all, byKey) && '\\' !in all[n].path && 0 < end < |all[n].path|
    requires var x := Key(casing, all[n].path)[..end]; !(Cut(Key(casing, all[n].path), end) && x in byKey && byKey[x].kind == File)
    ensures forall i :: 0 <= i < |all| && all[i].kind == File && |all[i].path| == end ==> NotAbove(casing, all[i].path, all[n].path)
  {
    SameCuts(casing, all[n].path, end);
  }

  lemma CanonicalHasNoBackslash(casing: Casing, path: string)
    requires Canonical(casing, path).Some?
    ensures '\\' !in Canonical(casing, path).value && Canonical(casing, path).value != ""
  {
    hide Split, ComponentOk, Utf8Size;
  }

  lemma NothingKnown(casing: Casing, all: seq<PathEntry>)
    ensures KnownPrefixes(casing, all[..0], map[]) && KnownPaths(casing, all[..0], map[]) && Distinct(casing, all[..0])
  {
  }

  lemma AllPairs(casing: Casing, all: seq<PathEntry>)
    requires Distinct(casing, all)
    requires forall i, j :: 0 <= i < |all| && 0 <= j < |all| && all[i].kind == File ==> NotAbove(casing, all[i].path, all[j].path)
    ensures PairwiseOk(casing, all)
  {
    hide SpelledAlike, NotAbove;
  }

  /** Validates the paths of a batch in one pass, with dictionaries of what was seen. */
  method ValidatePathEntries(casing: Casing, entries: seq<PathEntry>) returns (r: Result<seq<string>, PathFault>)
    requires KeepsSeparators(casing)
    ensures r.Ok? <==> Acceptable(casing, entries)
    ensures r.Ok? ==> |r.value| == |entries| && forall i :: 0 <= i < |entries| ==> Turned(entries[i].path, r.value[i]) && PlainPath(casing, r.value[i])
    ensures r.Err? && r.error.NotCanonical? ==>
      r.error.index < |entries| && forall s :: Turned(entries[r.error.index].path, s) ==> !PlainPath(casing, s)
    ensures r.Ok? ==> forall i :: 0 <= i < |entries| ==> Some(r.value[i]) == Canonical(casing, entries[i].path)
  {
    hide Canonical, PlainPath, Turned, Key, KnownPrefixes, KnownPaths, Distinct, SpelledAlike, PairwiseOk, Entered;
    var canonical: seq<string> := [];
    var byKey: map<string, PathEntry> := map[];
    var prefixes: map<string, string> := map[];
    ghost var all := Canonicals(casing, entries);
    NothingKnown(casing, all);
    for n := 0 to |entries|
      invariant |canonical| == n && forall i :: 0 <= i < n ==> Some(canonical[i]) == Canonical(casing, entries[i].path)
      invariant forall i :: 0 <= i < n ==> Turned(entries[i].path, canonical[i]) && PlainPath(casing, canonical[i])
      invariant KnownPrefixes(casing, all[..n], prefixes) && KnownPaths(casing, all[..n], byKey) && Distinct(casing, all[..n])
    {
      var path := Canonical(casing, entries[n].path);
      PlainOrNot(casing, entries[n].path);
      if path.None? {
        return Err(NotCanonical(n));
      }
      CanonicalHasNoBackslash(casing, entries[n].path);
      assert all[n].path == path.value;
      var ok, next := EnterPrefixes(casing, all[..n], path.value, prefixes);
      assert forall i :: 0 <= i < n ==> all[..n][i] == all[i];
      if !ok {
        NotDistinct(casing, all, n);
        return Err(CaseCollision);
      }
      var key := WindowsCollisionKey(casing, path.value);
      if key in byKey {
        SameKeySamePath(casing, all, n, byKey);
        return Err(if byKey[key].path == path.value then Duplicate else CaseCollision);
      }
      assert all[n] == PathEntry(path.value, entries[n].kind);
      OneMorePrefix(casing, all, n, prefixes, next);
      OneMorePath(casing, all, n, byKey);
      prefixes := next;
      byKey := byKey[key := PathEntry(path.value, entries[n].kind)];
      canonical := canonical + [path.value];
    }
    assert all[..|entries|] == all;
    r := CheckAncestors(casing, entries, canonical, byKey);
  }

  method CheckAncestors(casing: Casing, ghost entries: seq<PathEntry>, canonical: seq<string>, byKey: map<string, PathEntry>) returns (r: Result<seq<string>, PathFault>)
    requires KeepsSeparators(casing) && |canonical| == |entries| && forall i :: 0 <= i < |entries| ==> Some(canonical[i]) == Canonical(casing, entries[i].path)
    requires KnownPaths(casing, Canonicals(casing, entries), byKey) && Distinct(casing, Canonicals(casing, entries))
    ensures r.Ok? <==> Acceptable(casing, entries)
    ensures if r.Ok? then r.value == canonical else r.error == FileAbove
  {
    hide Canonical, Key, KnownPaths, Distinct, SpelledAlike, PairwiseOk;
    ghost var all := Canonicals(casing, entries);
    forall i | 0 <= i < |entries| ensures all[i].path != "" {
      CanonicalHasNoBackslash(casing, entries[i].path);
      assert all[i].path == canonical[i];
    }
    var n := 0;
    while n < |canonical|
      invariant 0 <= n <= |canonical|
      invariant forall i, j :: 0 <= i < |all| && 0 <= j < n && all[i].kind == File ==> NotAbove(casing, all[i].path, all[j].path)
    {
      CanonicalHasNoBackslash(casing, entries[n].path);
      assert all[n].path == canonical[n];
      var key := WindowsCollisionKey(casing, canonical[n]);
      var end := 1;
      while end < |key|
        invariant 1 <= end && (end <= |key| || end == 1)
        invariant forall i :: 0 <= i < |all| && all[i].kind == File && |all[i].path| < end ==> NotAbove(casing, all[i].path, all[n].path)
      {
        if Cut(key, end) && key[..end] in byKey && byKey[key[..end]].kind == File {
          FileFound(casing, all, byKey, n, end);
          return Err(FileAbove);
        }
        NoFileAt(casing, all, byKey, n, end);
        end := end + 1;
      }
      n := n + 1;
    }
    AllPairs(casing, all);
    r := Ok(canonical);
  }

  // ---------------------------------------------------------------- the order of entries

  /** Two entries may be in one set. */
  predicate Together(casing: Casing, a: PathEntry, b: PathEntry) {
    var x, y := CanonicalEntry(casing, a), CanonicalEntry(casing, b);
    x.path != y.path && Compatible(casing, x, y)
  }

  lemma TogetherSymmetric(casing: Casing, a: PathEntry, b: PathEntry)
    ensures Together(casing, a, b) <==> Together(casing, b, a)
  {
    var p, q := CanonicalEntry(casing, a).path, CanonicalEntry(casing, b).path;
    forall k ensures AlikeAt(casing, p, q, k) <==> AlikeAt(casing, q, p, k) {
    }
    assert forall k :: k > |p| || k > |q| ==> AlikeAt(casing, p, q, k) && AlikeAt(casing, q, p, k);
  }

  lemma Occurrences<T>(s: seq<T>, i: nat, j: nat)
    requires i < j < |s| && s[i] == s[j]
    ensures multiset(s)[s[i]] >= 2
  {
    assert s == s[..j] + [s[j]] + s[j + 1..];
    assert s[..j][i] in multiset(s[..j]);
  }

  lemma {:induction false} TwiceIsTwoPlaces<T>(s: seq<T>, x: T) returns (i: nat, j: nat)
    requires multiset(s)[x] >= 2
    ensures i < j < |s| && s[i] == x && s[j] == x
  {
    var n := |s| - 1;
    assert s == s[..n] + [s[n]];
    if s[n] == x {
      assert x in multiset(s[..n]);
      i, j :| 0 <= i < n && s[..n][i] == x && j == n;
    } else {
      i, j := TwiceIsTwoPlaces(s[..n], x);
    }
  }

  /** Pairs of positions or pairs of members: the rule is the same. */
  lemma PairsOfMembers(casing: Casing, es: seq<PathEntry>)
    ensures PairwiseOk(casing, Canonicals(casing, es)) <==>
      ((forall a :: a in es ==> multiset(es)[a] <= 1) && forall a, b :: a in es && b in es && a != b ==> Together(casing, a, b))
  {
    hide Together, Canonical;
    PairsOfPlaces(casing, es);
    if forall i, j :: 0 <= i < j < |es| ==> Together(casing, es[i], es[j]) {
      forall a | a in es ensures multiset(es)[a] <= 1 {
        if multiset(es)[a] >= 2 {
          var i, j := TwiceIsTwoPlaces(es, a);
          NotWithItself(casing, a);
        }
      }
      forall a, b | a in es && b in es && a != b ensures Together(casing, a, b) {
        var i :| 0 <= i < |es| && es[i] == a;
        var j :| 0 <= j < |es| && es[j] == b;
        TogetherSymmetric(casing, a, b);
      }
    } else {
      var i, j :| 0 <= i < j < |es| && !Together(casing, es[i], es[j]);
      if es[i] == es[j] {
        Occurrences(es, i, j);
      }
    }
  }

  lemma NotWithItself(casing: Casing, a: PathEntry)
    ensures !Together(casing, a, a)
  {
  }

  lemma PairsOfPlaces(casing: Casing, es: seq<PathEntry>)
    ensures PairwiseOk(casing, Canonicals(casing, es)) <==> forall i, j :: 0 <= i < j < |es| ==> Together(casing, es[i], es[j])
  {
    hide Canonical, Compatible;
    var all := Canonicals(casing, es);
    assert forall i, j :: 0 <= i < j < |es| ==> (Together(casing, es[i], es[j]) <==> all[i].path != all[j].path && Compatible(casing, all[i], all[j]));
  }

  /** The order of the entries does not matter. */
  lemma OrderIndependent(casing: Casing, es: seq<PathEntry>, fs: seq<PathEntry>)
    requires multiset(es) == multiset(fs)
    ensures Acceptable(casing, es) <==> Acceptable(casing, fs)
  {
    hide Canonical, Together, PairwiseOk;
    PairsOfMembers(casing, es);
    PairsOfMembers(casing, fs);
    SameMembers(es, fs);
    assert (forall i :: 0 <= i < |es| ==> Canonical(casing, es[i].path).Some?) <==> forall a :: a in es ==> Canonical(casing, a.path).Some?;
    assert (forall i :: 0 <= i < |fs| ==> Canonical(casing, fs[i].path).Some?) <==> forall a :: a in fs ==> Canonical(casing, a.path).Some?;
  }
}
