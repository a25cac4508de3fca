/** The clipboard's HTML format: a text header that says, in byte offsets, where the HTML and the fragment
    are. A byte string is written as the string of its bytes. */
module CfHtml {
  import opened Common

  const START_MARKER := "<!--StartFragment-->"
  const END_MARKER := "<!--EndFragment-->"

  // ---------------------------------------------------------------- searching

  predicate At(s: string, p: int, pat: string) {
    0 <= p && p + |pat| <= |s| && s[p..p + |pat|] == pat
  }

  /** The first place a pattern occurs. */
  function Find(s: string, pat: string): (r: Option<nat>)
    ensures r.Some? ==> At(s, r.value, pat) && forall p :: 0 <= p < r.value ==> !At(s, p, pat)
    ensures r.None? ==> forall p :: !At(s, p, pat)
  {
    FindFrom(s, pat, 0)
  }

  function FindFrom(s: string, pat: string, from: nat): (r: Option<nat>)
    requires from <= |s| + 1
    ensures r.Some? ==> from <= r.value && At(s, r.value, pat) && forall p :: from <= p < r.value ==> !At(s, p, pat)
    ensures r.None? ==> forall p :: from <= p ==> !At(s, p, pat)
    decreases |s| + 1 - from
  {
    if from > |s| then None
    else if At(s, from, pat) then Some(from)
    else FindFrom(s, pat, from + 1)
  }

  // ---------------------------------------------------------------- markers

  /** How the host's regular expressions see characters. */
  datatype Text = Text(lower: char -> char, space: char -> bool, word: char -> bool)

  function Lowered(t: Text, s: string): (r: string)
    ensures |r| == |s|
  {
    seq(|s|, i requires 0 <= i < |s| => t.lower(s[i]))
  }

  function FindChar(s: string, c: char, from: nat): (r: Option<nat>)
    ensures r.Some? ==> from <= r.value < |s| && s[r.value] == c && forall i :: from <= i < r.value ==> s[i] != c
    ensures r.None? ==> forall i :: from <= i < |s| ==> s[i] != c
    decreases |s| - from
  {
    if from >= |s| then None else if s[from] == c then Some(from) else FindChar(s, c, from + 1)
  }

  function SkipSpace(t: Text, s: string, from: nat): (r: nat)
    requires from <= |s|
    ensures from <= r <= |s| && (forall i :: from <= i < r ==> t.space(s[i])) && (r < |s| ==> !t.space(s[r]))
    decreases |s| - from
  {
    if from < |s| && t.space(s[from]) then SkipSpace(t, s, from + 1) else from
  }

  datatype Span = Span(start: nat, end: nat)

  /** An opening tag of a name, with whatever attributes, stands here. */
  predicate OpensAt(t: Text, s: string, name: string, p: nat) {
    var n := p + 1 + |name|;
    n <= |s| && At(Lowered(t, s), p, "<" + name) && (n == |s| || !t.word(s[n])) && FindChar(s, '>', n).Some?
  }

  /** The first opening tag of a name. It runs to the first '>' behind the name. */
  function OpenTag(t: Text, s: string, name: string, from: nat): (r: Option<Span>)
    ensures r.Some? ==> from <= r.value.start < r.value.end <= |s| && s[r.value.end - 1] == '>'
    ensures r.Some? ==> OpensAt(t, s, name, r.value.start) && forall i :: r.value.start + 1 + |name| <= i < r.value.end - 1 ==> s[i] != '>'
    ensures r.Some? ==> forall p :: from <= p < r.value.start ==> !OpensAt(t, s, name, p)
    ensures r.None? ==> forall p :: from <= p ==> !OpensAt(t, s, name, p)
    decreases |s| - from
  {
    var n := from + 1 + |name|;
    if n > |s| then None
    else if OpensAt(t, s, name, from) then Some(Span(from, FindChar(s, '>', n).value + 1))
    else OpenTag(t, s, name, from + 1)
  }

  /** A closing tag of a name stands here. */
  predicate ClosesAt(t: Text, s: string, name: string, p: nat) {
    var n := p + 2 + |name|;
    n <= |s| && At(Lowered(t, s), p, "</" + name) && SkipSpace(t, s, n) < |s| && s[SkipSpace(t, s, n)] == '>'
  }

  /** The first closing tag of a name. */
  function CloseTag(t: Text, s: string, name: string, from: nat): (r: Option<Span>)
    ensures r.Some? ==> from <= r.value.start && ClosesAt(t, s, name, r.value.start) && r.value.end == SkipSpace(t, s, r.value.start + 2 + |name|) + 1
    ensures r.Some? ==> forall p :: from <= p < r.value.start ==> !ClosesAt(t, s, name, p)
    ensures r.None? ==> forall p :: from <= p ==> !ClosesAt(t, s, name, p)
    decreases |s| - from
  {
    var n := from + 2 + |name|;
    if n > |s| then None
    else if ClosesAt(t, s, name, from) then Some(Span(from, SkipSpace(t, s, n) + 1))
    else CloseTag(t, s, name, from + 1)
  }

  function Inserted(s: string, m: nat, ins: string): string
    requires m <= |s|
  {
    s[..m] + ins + s[m..]
  }

  /** Text after the opening tag; the closing tag, searched in what that gives, is replaced. */
  function Wrapped(t: Text, s: string, name: string, after: string, before: string): Option<string> {
    var o := OpenTag(t, s, name, 0);
    if o.None? || CloseTag(t, s, name, 0).None? then None
    else
      var u := Inserted(s, o.value.end, after);
      var c := CloseTag(t, u, name, 0);
      Some(if c.None? then u else u[..c.value.start] + before + u[c.value.end..])
  }

  function EnsureMarkers(t: Text, html: string): string {
    if Find(html, START_MARKER).Some? && Find(html, END_MARKER).Some? then html
    else
      var body := Wrapped(t, html, "body", START_MARKER, END_MARKER + "</body>");
      if body.Some? then body.value
      else
        var page := Wrapped(t, html, "html", "<body>" + START_MARKER, END_MARKER + "</body></html>");
        if page.Some? then page.value
        else "<html><body>" + START_MARKER + html + END_MARKER + "</body></html>"
  }

  // ---------------------------------------------------------------- numbers in the header

  function Digits(n: nat): string {
    if n < 10 then [Digit(n)] else Digits(n / 10) + [Digit(n % 10)]
  }

  function Digit(d: nat): char
    requires d < 10
  {
    ('0' as int + d) as char
  }

  predicate IsDigit(c: char) {
    '0' <= c <= '9'
  }

  function Zeros(k: nat): string {
    if k == 0 then [] else "0" + Zeros(k - 1)
  }

  /** At least eight digits. */
  function Padded(n: nat): string {
    if |Digits(n)| < 8 then Zeros(8 - |Digits(n)|) + Digits(n) else Digits(n)
  }

  function Number(s: string): nat
    requires forall i :: 0 <= i < |s| ==> IsDigit(s[i])
  {
    if s == [] then 0
    else
      assert IsDigit(s[|s| - 1]);
      10 * Number(s[..|s| - 1]) + (s[|s| - 1] as int - '0' as int)
  }

  lemma {:induction false} DigitsRead(n: nat)
    ensures (forall i :: 0 <= i < |Digits(n)| ==> IsDigit(Digits(n)[i])) && Number(Digits(n)) == n && |Digits(n)| > 0
  {
    if n >= 10 {
      DigitsRead(n / 10);
      assert Digits(n)[..|Digits(n)| - 1] == Digits(n / 10);
    } else {
      assert Digits(n)[..0] == [];
    }
  }

  lemma {:induction false} ZerosRead(k: nat, s: string)
    requires forall i :: 0 <= i < |s| ==> IsDigit(s[i])
    ensures |Zeros(k)| == k && (forall i :: 0 <= i < |Zeros(k) + s| ==> IsDigit((Zeros(k) + s)[i])) && Number(Zeros(k) + s) == Number(s)
    decreases k + |s|
  {
    if s != [] {
      ZerosRead(k, s[..|s| - 1]);
      assert (Zeros(k) + s)[..|Zeros(k) + s| - 1] == Zeros(k) + s[..|s| - 1];
    } else if k > 0 {
      ZerosRead(k - 1, []);
      ZeroIsRead(k);
    }
  }

  lemma {:induction false} ZeroIsRead(k: nat)
    ensures |Zeros(k)| == k && (forall i :: 0 <= i < k ==> Zeros(k)[i] == '0') && Number(Zeros(k)) == 0 && Zeros(k) + [] == Zeros(k)
  {
    if k > 0 {
      ZeroIsRead(k - 1);
      assert Zeros(k)[..k - 1] == Zeros(k - 1);
    }
  }

  lemma PaddedReads(n: nat)
    ensures (forall i :: 0 <= i < |Padded(n)| ==> IsDigit(Padded(n)[i])) && Number(Padded(n)) == n && |Padded(n)| > 0
  {
    DigitsRead(n);
    if |Digits(n)| < 8 {
      ZerosRead(8 - |Digits(n)|, Digits(n));
    }
  }

  lemma {:induction false} DigitCount(n: nat, w: nat)
    requires w > 0
    ensures |Digits(n)| <= w <==> n < Ten(w)
    decreases w
  {
    if n < 10 {
      TenGrows(w);
    } else if w == 1 {
      DigitsRead(n / 10);
    } else {
      DigitCount(n / 10, w - 1);
    }
  }

  function Ten(w: nat): nat {
    if w == 0 then 1 else 10 * Ten(w - 1)
  }

  lemma {:induction false} TenGrows(w: nat)
    requires w > 0
    ensures Ten(w) >= 10
  {
    if w > 1 {
      TenGrows(w - 1);
    }
  }

  /** A field is eight digits wide exactly below a hundred million. */
  lemma PaddedIsEight(n: nat)
    ensures |Padded(n)| >= 8 && (|Padded(n)| == 8 <==> n < 100_000_000)
  {
    DigitCount(n, 8);
    assert Ten(8) == 100_000_000;
    ZeroIsRead(if |Digits(n)| < 8 then 8 - |Digits(n)| else 0);
  }

  // ---------------------------------------------------------------- building

  function Line(name: string, n: nat): string {
    name + ":" + Padded(n) + "\r\n"
  }

  function SourceLine(url: string): string {
    if url == "" then "" else "SourceURL:" + url + "\r\n"
  }

  function Header(startHtml: nat, endHtml: nat, startFragment: nat, endFragment: nat, url: string): string {
    "Version:0.9\r\n" + Line("StartHTML", startHtml) + Line("EndHTML", endHtml) + Line("StartFragment", startFragment)
    + Line("EndFragment", endFragment) + SourceLine(url) + "\r\n"
  }

  datatype Parsed = Parsed(html: string, fragment: string, startHtml: nat, endHtml: nat, startFragment: nat, endFragment: nat)

  /** Offsets are computed with the zeroed header; the header with the offsets filled in goes in front. */
  function Build(t: Text, fragment: string, url: string): Option<string> {
    var html := EnsureMarkers(t, fragment);
    var start := |Header(0, 0, 0, 0, url)|;
    var s, e := Find(html, START_MARKER), Find(html, END_MARKER);
    if s.None? || e.None? || e.value < s.value then None
    else Some(Header(start, start + |html|, start + s.value + |START_MARKER|, start + e.value, url) + html)
  }

  // ---------------------------------------------------------------- parsing

  predicate Space(c: char) {
    c == ' ' || c == '\t' || c == '\n' || c == '\r' || c as int == 11 || c as int == 12
  }

  function DigitsEnd(s: string, from: nat): (r: nat)
    requires from <= |s|
    ensures from <= r <= |s| && forall i :: from <= i < r ==> IsDigit(s[i])
    decreases |s| - from
  {
    if from < |s| && IsDigit(s[from]) then DigitsEnd(s, from + 1) else from
  }

  /** Only white space up to the end of a line or of the text. */
  predicate EndsLine(s: string, from: nat)
    requires from <= |s|
    decreases |s| - from
  {
    from == |s| || s[from] == '\n' || (Space(s[from]) && EndsLine(s, from + 1))
  }

  /** The number of a field that begins right here. */
  function FieldHere(s: string, name: string): Option<nat> {
    var k := |name| + 1;
    if !At(s, 0, name + ":") then None
    else
      var q := DigitsEnd(s, k);
      if q == k || !EndsLine(s, q) then None
      else
        assert forall i :: 0 <= i < q - k ==> s[k..q][i] == s[k + i];
        Some(Number(s[k..q]))
  }

  /** From a place on there is only white space up to the end of the line. */
  ghost predicate Blank(s: string, from: nat, e: nat) {
    from <= e <= |s| && (e == |s| || s[e] == '\n') && forall i :: from <= i < e ==> 9 <= s[i] as int <= 13 || s[i] == ' '
  }

  lemma {:induction false} EndsLineIs(s: string, from: nat)
    requires from <= |s|
    ensures EndsLine(s, from) <==> exists e :: Blank(s, from, e)
    decreases |s| - from
  {
    if from == |s| || s[from] == '\n' {
      assert Blank(s, from, from);
    } else {
      EndsLineIs(s, from + 1);
      if Space(s[from]) && EndsLine(s, from + 1) {
        var e: nat :| Blank(s, from + 1, e);
        assert Blank(s, from, e);
      }
      if exists e :: Blank(s, from, e) {
        var e: nat :| Blank(s, from, e);
        assert Blank(s, from + 1, e);
      }
    }
  }

  /** The text begins with the name, a colon, at least one digit, and nothing but white space on the line. */
  ghost predicate NumberLine(s: string, name: string, q: nat) {
    && |name| + 1 < q <= |s| && s[..|name| + 1] == name + ":"
    && (forall i :: |name| + 1 <= i < q ==> '0' <= s[i] <= '9') && (q < |s| ==> !('0' <= s[q] <= '9'))
    && exists e :: Blank(s, q, e)
  }

  lemma {:induction false} DigitsEndHere(s: string, from: nat, q: nat)
    requires from <= q <= |s| && (forall i :: from <= i < q ==> IsDigit(s[i])) && (q < |s| ==> !IsDigit(s[q]))
    ensures DigitsEnd(s, from) == q
    decreases q - from
  {
    if from < q {
      DigitsEndHere(s, from + 1, q);
    }
  }

  lemma {:induction false} DigitsStop(s: string, from: nat)
    requires from <= |s|
    ensures var q := DigitsEnd(s, from); q < |s| ==> !IsDigit(s[q])
    decreases |s| - from
  {
    if from < |s| && IsDigit(s[from]) {
      DigitsStop(s, from + 1);
    }
  }

  /** A field is read exactly from a line that is its name and a number. */
  lemma FieldIsANumber(s: string, name: string, q: nat)
    ensures NumberLine(s, name, q) ==> FieldHere(s, name) == Some(Number(s[|name| + 1..q]))
    ensures FieldHere(s, name).Some? ==> exists p :: NumberLine(s, name, p)
  {
    var k := |name| + 1;
    if NumberLine(s, name, q) {
      assert s[0..k] == s[..k];
      DigitsEndHere(s, k, q);
      EndsLineIs(s, q);
    }
    if FieldHere(s, name).Some? {
      var p := DigitsEnd(s, k);
      DigitsStop(s, k);
      EndsLineIs(s, p);
      assert s[0..k] == s[..k];
      assert NumberLine(s, name, p);
    }
  }

  /** The first line that is the field. */
  function Field(s: string, name: string): Option<nat>
    decreases |s|
  {
    var here := FieldHere(s, name);
    var next := FindChar(s, '\n', 0);
    if here.Some? then here
    else if next.None? then None
    else Field(s[next.value + 1..], name)
  }

  function Parse(blob: string): Option<Parsed> {
    var sh, eh, sf, ef := Field(blob, "StartHTML"), Field(blob, "EndHTML"), Field(blob, "StartFragment"), Field(blob, "EndFragment");
    if sh.None? || eh.None? || sf.None? || ef.None? then None
    else if !(sh.value <= sf.value <= ef.value <= eh.value <= |blob|) then None
    else Some(Parsed(blob[sh.value..eh.value], blob[sf.value..ef.value], sh.value, eh.value, sf.value, ef.value))
  }

  lemma {:induction false} FirstChar(s: string, c: char, from: nat, p: nat)
    requires from <= p < |s| && s[p] == c && forall i :: from <= i < p ==> s[i] != c
    ensures FindChar(s, c, from) == Some(p)
    decreases p - from
  {
    if from < p {
      FirstChar(s, c, from + 1, p);
    }
  }

  /** A line of another name is passed over. */
  lemma OtherLine(line: string, rest: string, name: string)
    requires '\n' !in line && !At(line + "\n" + rest, 0, name + ":")
    ensures Field(line + "\n" + rest, name) == Field(rest, name)
  {
    var s := line + "\n" + rest;
    FirstChar(s, '\n', 0, |line|);
    assert s[|line| + 1..] == rest;
  }

  lemma {:induction false} RunEnds(s: string, from: nat, q: nat)
    requires from <= q < |s| && !IsDigit(s[q]) && forall i :: from <= i < q ==> IsDigit(s[i])
    ensures DigitsEnd(s, from) == q
    decreases q - from
  {
    if from < q {
      RunEnds(s, from + 1, q);
    }
  }

  /** A field reads back the number it was written with. */
  lemma FieldReads(name: string, n: nat, rest: string)
    ensures Field(Line(name, n) + rest, name) == Some(n)
  {
    var s := Line(name, n) + rest;
    var k := |name| + 1;
    var q := k + |Padded(n)|;
    PaddedReads(n);
    assert s[0..0 + |name + ":"|] == name + ":";
    assert s[k..q] == Padded(n);
    assert forall i :: k <= i < q ==> s[i] == Padded(n)[i - k];
    assert s[q] == '\r' && s[q + 1] == '\n';
    RunEnds(s, k, q);
    assert EndsLine(s, q + 1);
    assert EndsLine(s, q);
  }

  /** Passing over a numbered line of another name. */
  lemma OtherField(other: string, n: nat, rest: string, name: string)
    requires '\n' !in other && !At(Line(other, n) + rest, 0, name + ":")
    ensures Field(Line(other, n) + rest, name) == Field(rest, name)
  {
    PaddedReads(n);
    var line := other + ":" + Padded(n) + "\r";
    assert Line(other, n) + rest == line + "\n" + rest;
    forall i | 0 <= i < |line| ensures line[i] != '\n' {
      if |other| + 1 <= i < |line| - 1 {
        assert line[i] == Padded(n)[i - |other| - 1];
      }
    }
    OtherLine(line, rest, name);
  }

  lemma DiffersAt(s: string, pat: string, k: nat)
    requires k < |pat| && k < |s| && s[k] != pat[k]
    ensures !At(s, 0, pat)
  {
    if |pat| <= |s| {
      assert s[0..|pat|][k] == s[k];
    }
  }

  /** The header as its first line and the lines after it. */
  lemma HeaderLines(sh: nat, eh: nat, sf: nat, ef: nat, url: string, html: string)
    ensures Header(sh, eh, sf, ef, url) + html == "Version:0.9\r" + "\n"
      + (Line("StartHTML", sh) + (Line("EndHTML", eh) + (Line("StartFragment", sf) + (Line("EndFragment", ef) + (SourceLine(url) + "\r\n" + html)))))
  {
    hide Line, SourceLine;
  }

  /** Each field is found in the header, whatever follows it. */
  lemma HeaderFields(sh: nat, eh: nat, sf: nat, ef: nat, url: string, html: string)
    ensures var blob := Header(sh, eh, sf, ef, url) + html;
            && Field(blob, "StartHTML") == Some(sh) && Field(blob, "EndHTML") == Some(eh)
            && Field(blob, "StartFragment") == Some(sf) && Field(blob, "EndFragment") == Some(ef)
  {
    hide Field, Line, Header, SourceLine;
    var r5 := SourceLine(url) + "\r\n" + html;
    var r4 := Line("EndFragment", ef) + r5;
    var r3 := Line("StartFragment", sf) + r4;
    var r2 := Line("EndHTML", eh) + r3;
    var r1 := Line("StartHTML", sh) + r2;
    HeaderLines(sh, eh, sf, ef, url, html);
    PassVersion(r1, "StartHTML");
    PassVersion(r1, "EndHTML");
    PassVersion(r1, "StartFragment");
    PassVersion(r1, "EndFragment");
    FieldReads("StartHTML", sh, r2);
    PassLine("StartHTML", sh, r2, "EndHTML", 0);
    PassLine("StartHTML", sh, r2, "StartFragment", 5);
    PassLine("StartHTML", sh, r2, "EndFragment", 0);
    FieldReads("EndHTML", eh, r3);
    PassLine("EndHTML", eh, r3, "StartFragment", 0);
    PassLine("EndHTML", eh, r3, "EndFragment", 3);
    FieldReads("StartFragment", sf, r4);
    PassLine("StartFragment", sf, r4, "EndFragment", 0);
    FieldReads("EndFragment", ef, r5);
  }

  lemma PassVersion(rest: string, name: string)
    requires name != "" && name[0] != 'V'
    ensures Field("Version:0.9\r" + "\n" + rest, name) == Field(rest, name)
  {
    DiffersAt("Version:0.9\r" + "\n" + rest, name + ":", 0);
    OtherLine("Version:0.9\r", rest, name);
  }

  lemma PassLine(other: string, n: nat, rest: string, name: string, k: nat)
    requires k < |other| && k < |name| && other[k] != name[k] && '\n' !in other
    ensures Field(Line(other, n) + rest, name) == Field(rest, name)
  {
    DiffersAt(Line(other, n) + rest, name + ":", k);
    OtherField(other, n, rest, name);
  }

  lemma HeaderLength(sh: nat, eh: nat, sf: nat, ef: nat, url: string)
    ensures |Header(sh, eh, sf, ef, url)| == |Header(0, 0, 0, 0, url)| + |Padded(sh)| + |Padded(eh)| + |Padded(sf)| + |Padded(ef)| - 32
  {
    PaddedIsEight(0);
  }

  // ---------------------------------------------------------------- round trip

  lemma CharAt(s: string, p: int, pat: string, k: nat)
    requires At(s, p, pat) && k < |pat|
    ensures s[p + k] == pat[k]
  {
    assert s[p..p + |pat|][k] == s[p + k];
  }

  /** The second marker does not begin inside the first. */
  lemma MarkersApart(html: string, s: nat, e: nat)
    requires At(html, s, START_MARKER) && At(html, e, END_MARKER) && s <= e
    ensures s + |START_MARKER| <= e && e + |END_MARKER| <= |html|
  {
    CharAt(html, s, START_MARKER, 4);
    CharAt(html, e, END_MARKER, 4);
    CharAt(html, e, END_MARKER, 0);
    forall p | s < p < s + |START_MARKER| ensures html[p] != '<' {
      CharAt(html, s, START_MARKER, p - s);
    }
  }

  /** With eight digits in every field the header is as long as the zeroed one. */
  lemma OffsetsHold(start: nat, html: string, sf: nat, ef: nat, url: string)
    requires start == |Header(0, 0, 0, 0, url)| && start <= sf <= ef <= start + |html|
    requires start + |html| < 100_000_000
    ensures var blob := Header(start, start + |html|, sf, ef, url) + html;
            && |blob| == start + |html| && blob[start..start + |html|] == html && blob[sf..ef] == html[sf - start..ef - start]
  {
    hide Header, Padded;
    PaddedIsEight(start);
    PaddedIsEight(start + |html|);
    PaddedIsEight(sf);
    PaddedIsEight(ef);
    HeaderLength(start, start + |html|, sf, ef, url);
  }

  /** Parsing what was built gives the marked-up HTML and exactly what stands between the markers, when
      the payload ends below a hundred million. */
  lemma RoundTrip(t: Text, fragment: string, url: string)
    requires Build(t, fragment, url).Some? && |Header(0, 0, 0, 0, url)| + |EnsureMarkers(t, fragment)| < 100_000_000
    ensures var html := EnsureMarkers(t, fragment);
            var s, e := Find(html, START_MARKER).value, Find(html, END_MARKER).value;
            var start := |Header(0, 0, 0, 0, url)|;
            && s + |START_MARKER| <= e <= |html|
            && Parse(Build(t, fragment, url).value) == Some(Parsed(html, html[s + |START_MARKER|..e], start, start + |html|, start + s + |START_MARKER|, start + e))
  {
    hide Header, Field, Padded, EnsureMarkers, Find;
    var html := EnsureMarkers(t, fragment);
    var s, e := Find(html, START_MARKER).value, Find(html, END_MARKER).value;
    var start := |Header(0, 0, 0, 0, url)|;
    MarkersApart(html, s, e);
    var sf, ef := start + s + |START_MARKER|, start + e;
    HeaderFields(start, start + |html|, sf, ef, url, html);
    OffsetsHold(start, html, sf, ef, url);
  }

  /** Text that has both markers in order is sent as it is, and what stands between them comes back. */
  lemma MarkedFragment(t: Text, f: string, url: string)
    requires Find(f, START_MARKER).Some? && Find(f, END_MARKER).Some? && |Header(0, 0, 0, 0, url)| + |f| < 100_000_000
    ensures Build(t, f, url).Some? <==> Find(f, START_MARKER).value <= Find(f, END_MARKER).value
    ensures Build(t, f, url).Some? ==>
      var s, e := Find(f, START_MARKER).value + |START_MARKER|, Find(f, END_MARKER).value; var r := Parse(Build(t, f, url).value);
      s <= e <= |f| && r.Some? && r.value.html == f && r.value.fragment == f[s..e]
  {
    hide Header, Field, Padded, Find, Parse, Build;
    assert EnsureMarkers(t, f) == f;
    BuildsWhen(t, f, url);
    if Find(f, START_MARKER).value <= Find(f, END_MARKER).value {
      RoundTrip(t, f, url);
    }
  }

  /** The line of the source is there exactly when there is a source. */
  lemma HeaderSize(url: string)
    ensures |Header(0, 0, 0, 0, url)| == |Header(0, 0, 0, 0, "")| + (if url == "" then 0 else |url| + 12)
  {
    hide Line;
  }

  lemma LineHasNoBracket(name: string, n: nat)
    requires '<' !in name
    ensures '<' !in Line(name, n)
  {
    PaddedReads(n);
    assert '<' !in Padded(n);
  }

  lemma HeaderHasNoBracket(sh: nat, eh: nat, sf: nat, ef: nat, url: string)
    requires '<' !in url
    ensures '<' !in Header(sh, eh, sf, ef, url)
  {
    hide Line, SourceLine;
    LineHasNoBracket("StartHTML", sh);
    LineHasNoBracket("EndHTML", eh);
    LineHasNoBracket("StartFragment", sf);
    LineHasNoBracket("EndFragment", ef);
    SourceHasNoBracket(url);
  }

  lemma SourceHasNoBracket(url: string)
    requires '<' !in url
    ensures '<' !in SourceLine(url)
  {
  }

  /** Text that equals itself shifted behind other text has only characters of that text. */
  lemma {:induction false} Shifted(head: string, html: string, k: nat)
    requires |head| > 0 && k < |html| && (head + html)[..|html|] == html
    ensures html[k] in head
    decreases k
  {
    var all := head + html;
    assert all[..|html|][k] == html[k];
    if k < |head| {
      assert all[k] == head[k];
    } else {
      assert all[k] == html[k - |head|];
      Shifted(head, html, k - |head|);
    }
  }

  /** The bound is sharp: from a hundred million on a field has nine digits, the HTML moves, and what is
      parsed is never the HTML that was built. */
  lemma BoundIsSharp(t: Text, fragment: string, url: string)
    requires Build(t, fragment, url).Some? && |Header(0, 0, 0, 0, url)| + |EnsureMarkers(t, fragment)| >= 100_000_000
    requires '<' !in url || |Header(0, 0, 0, 0, url)| + |EnsureMarkers(t, fragment)| < 1_000_000_000_000
    ensures var p := Parse(Build(t, fragment, url).value); p.Some? ==> p.value.html != EnsureMarkers(t, fragment)
  {
    hide Header, Field, Padded, EnsureMarkers, Find;
    var html := EnsureMarkers(t, fragment);
    var s, e := Find(html, START_MARKER).value, Find(html, END_MARKER).value;
    var start := |Header(0, 0, 0, 0, url)|;
    var end, sf, ef := start + |html|, start + s + |START_MARKER|, start + e;
    var header := Header(start, end, sf, ef, url);
    HeaderFields(start, end, sf, ef, url, html);
    PaddedIsEight(start);
    PaddedIsEight(end);
    PaddedIsEight(sf);
    PaddedIsEight(ef);
    HeaderLength(start, end, sf, ef, url);
    CharAt(html, s, START_MARKER, 0);
    if '<' !in url {
      HeaderHasNoBracket(start, end, sf, ef, url);
      NotShifted(header, start, html, s);
    } else {
      BelowTrillion(start);
      BelowTrillion(end);
      BelowTrillion(sf);
      BelowTrillion(ef);
      NotShiftedFar(header, start, html, s);
    }
  }

  /** A field has at most four digits more than its eight below a trillion. */
  lemma BelowTrillion(n: nat)
    requires n < 1_000_000_000_000
    ensures |Padded(n)| <= 12
  {
    DigitCount(n, 12);
    assert Ten(12) == 10 * (10 * (10 * (10 * Ten(8)))) && Ten(8) == 100_000_000;
    ZeroIsRead(if |Digits(n)| < 8 then 8 - |Digits(n)| else 0);
  }

  /** A marker cannot be moved onto itself by less than its length: its first character occurs once. */
  lemma NotShiftedFar(header: string, start: nat, html: string, s: nat)
    requires start < |header| < start + |START_MARKER| && At(html, s, START_MARKER)
    ensures (header + html)[start..start + |html|] != html
  {
    var k := |header| - start;
    CharAt(html, s, START_MARKER, k);
    CharAt(html, s, START_MARKER, 0);
    assert (header + html)[start..start + |html|][s + k] == (header + html)[|header| + s] == html[s];
  }

  lemma NotShifted(header: string, start: nat, html: string, s: nat)
    requires start < |header| && '<' !in header && s < |html| && html[s] == '<'
    ensures (header + html)[start..start + |html|] != html
  {
    var head := header[start..];
    assert (header + html)[start..start + |html|] == (head + html)[..|html|];
    if (head + html)[..|html|] == html {
      Shifted(head, html, s);
    }
  }

  // ---------------------------------------------------------------- what the markers enclose

  /** A pattern whose only '<' is its first character. */
  predicate Marker(pat: string) {
    pat != "" && pat[0] == '<' && forall i :: 0 < i < |pat| ==> pat[i] != '<'
  }

  ghost predicate Absent(s: string, pat: string) {
    forall p :: !At(s, p, pat)
  }

  /** What stands in one string stands in another that agrees with it there. */
  lemma Same(s: string, p: int, u: string, q: int, pat: string)
    requires At(s, p, pat) && 0 <= q <= q + |pat| <= |u| && s[p..p + |pat|] == u[q..q + |pat|]
    ensures At(u, q, pat)
  {
  }

  /** A marker that begins before another '<' ends before it. */
  lemma EndsBefore(s: string, p: nat, pat: string, q: nat)
    requires Marker(pat) && At(s, p, pat) && p < q < |s| && s[q] == '<'
    ensures p + |pat| <= q
  {
    if q < p + |pat| {
      CharAt(s, p, pat, q - p);
    }
  }

  /** Nothing begins in the first part of a text that goes on with '<' but what is in that part. */
  lemma NotInFront(a: string, b: string, pat: string, p: nat)
    requires Marker(pat) && Absent(a, pat) && b != "" && b[0] == '<' && p < |a|
    ensures !At(a + b, p, pat)
  {
    if At(a + b, p, pat) {
      EndsBefore(a + b, p, pat, |a|);
      Same(a + b, p, a, p, pat);
    }
  }

  /** A marker put behind text without it is found there first. */
  lemma FoundThere(a: string, pat: string, z: string)
    requires Marker(pat) && Absent(a, pat)
    ensures Find(a + pat + z, pat) == Some(|a|)
  {
    assert a + pat + z == a + (pat + z);
    forall p: nat | p < |a| ensures !At(a + (pat + z), p, pat) {
      NotInFront(a, pat + z, pat, p);
    }
    assert At(a + (pat + z), |a|, pat);
  }

  lemma AbsentJoin(a: string, b: string, pat: string)
    requires Marker(pat) && Absent(a, pat) && Absent(b, pat) && b != "" && b[0] == '<'
    ensures Absent(a + b, pat)
  {
    forall p: int ensures !At(a + b, p, pat) {
      if 0 <= p < |a| {
        NotInFront(a, b, pat, p);
      } else if At(a + b, p, pat) {
        Same(a + b, p, b, p - |a|, pat);
      }
    }
  }

  /** Another tag in front adds no occurrence. */
  lemma AbsentBehind(tag: string, x: string, pat: string, k: nat)
    requires Marker(pat) && Marker(tag) && k < |tag| && k < |pat| && tag[k] != pat[k] && Absent(x, pat)
    ensures Absent(tag + x, pat)
  {
    forall p: int ensures !At(tag + x, p, pat) {
      if At(tag + x, p, pat) {
        if p >= |tag| {
          Same(tag + x, p, x, p - |tag|, pat);
        } else {
          CharAt(tag + x, p, pat, 0);
          CharAt(tag + x, p, pat, k);
        }
      }
    }
  }

  lemma SliceOfSlice(s: string, lo: nat, hi: nat, a: nat, b: nat)
    requires lo <= hi <= |s| && a <= b <= hi - lo
    ensures s[lo..hi][a..b] == s[lo + a..lo + b]
  {
    assert forall k :: a <= k < b ==> s[lo..hi][k] == s[lo + k];
  }

  lemma AbsentPart(s: string, lo: nat, hi: nat, pat: string)
    requires lo <= hi <= |s| && forall p :: lo <= p && p + |pat| <= hi ==> !At(s, p, pat)
    ensures Absent(s[lo..hi], pat)
  {
    forall p: int ensures !At(s[lo..hi], p, pat) {
      if At(s[lo..hi], p, pat) {
        SliceOfSlice(s, lo, hi, p, p + |pat|);
        Same(s[lo..hi], p, s, lo + p, pat);
      }
    }
  }

  lemma MarkersAreMarkers()
    ensures Marker(START_MARKER) && Marker(END_MARKER) && |START_MARKER| == 20 && |END_MARKER| == 18
    ensures START_MARKER[4] != END_MARKER[4] && START_MARKER[1] == END_MARKER[1] == '!'
  {
  }

  /** In text put together around two markers, each is found where it was put. */
  lemma Enclosed(a: string, sm: string, mid: string, em: string, z: string)
    requires Marker(sm) && Marker(em) && |sm| > 4 && |em| > 4 && sm[4] != em[4]
    requires Absent(a, sm) && Absent(a, em) && Absent(mid, em)
    ensures var v := a + sm + mid + em + z;
            && Find(v, sm) == Some(|a|) && Find(v, em) == Some(|a| + |sm| + |mid|)
            && v[|a| + |sm|..|a| + |sm| + |mid|] == mid
  {
    hide Find, Marker, Absent, At;
    assert a + sm + mid + em + z == a + sm + (mid + em + z);
    FoundThere(a, sm, mid + em + z);
    AbsentBehind(sm, mid, em, 4);
    MarkerStarts(sm);
    AbsentJoin(a, sm + mid, em);
    FoundThere(a + (sm + mid), em, z);
    assert a + sm + mid + em + z == a + (sm + mid) + em + z;
  }

  lemma MarkerStarts(pat: string)
    requires Marker(pat)
    ensures pat != "" && pat[0] == '<'
  {
  }

  predicate Tagged(t: Text, s: string, name: string) {
    OpenTag(t, s, name, 0).Some? && CloseTag(t, s, name, 0).Some?
  }

  predicate Fits(t: Text, fragment: string, url: string) {
    |Header(0, 0, 0, 0, url)| + |EnsureMarkers(t, fragment)| < 100_000_000
  }

  /** A payload is built exactly when the markers come in order. */
  lemma BuildsWhen(t: Text, f: string, url: string)
    ensures var s, e := Find(EnsureMarkers(t, f), START_MARKER), Find(EnsureMarkers(t, f), END_MARKER);
            Build(t, f, url).Some? <==> s.Some? && e.Some? && s.value <= e.value
  {
    hide Header, EnsureMarkers, Find;
  }

  /** Text up to, at and after the first occurrence of a pattern. */
  lemma FindSplits(s: string, pat: string)
    requires Find(s, pat).Some? && pat != ""
    ensures var q := Find(s, pat).value;
            && q + |pat| <= |s| && s == s[..q] + pat + s[q + |pat|..] && Absent(s[..q], pat)
  {
    var q := Find(s, pat).value;
    assert At(s, q, pat);
    assert s == s[..q] + s[q..q + |pat|] + s[q + |pat|..];
    AbsentPart(s, 0, q, pat);
    assert s[0..q] == s[..q];
  }

  lemma BareText(t: Text, f: string)
    requires Find(f, START_MARKER).None? || Find(f, END_MARKER).None?
    requires !Tagged(t, f, "body") && !Tagged(t, f, "html")
    ensures EnsureMarkers(t, f) == "<html><body>" + START_MARKER + f + END_MARKER + "</body></html>"
  {
    hide Find, OpenTag, CloseTag;
  }

  lemma Rejoined(a: string, sm: string, f: string, mid: string, em: string, rest: string, tail: string)
    requires f == mid + em + rest
    ensures a + sm + f + em + tail == a + sm + mid + em + (rest + em + tail)
  {
  }

  /** Text with neither kind of tag is wrapped whole; what comes back is the text exactly when it did not
      hold the end marker itself. */
  lemma BareFragment(t: Text, f: string, url: string)
    requires Find(f, START_MARKER).None? || Find(f, END_MARKER).None?
    requires !Tagged(t, f, "body") && !Tagged(t, f, "html") && Fits(t, f, url)
    ensures Build(t, f, url).Some? && Parse(Build(t, f, url).value).Some?
    ensures Parse(Build(t, f, url).value).value.fragment == f <==> Find(f, END_MARKER).None?
  {
    hide Header, Padded, Field, Find, Tagged, Parse, Build, Absent, Marker, At, EnsureMarkers;
    var a, tail := "<html><body>", "</body></html>";
    var q := Find(f, END_MARKER);
    var mid, z := f, tail;
    BareText(t, f);
    if q.Some? {
      FindSplits(f, END_MARKER);
      mid, z := f[..q.value], f[q.value + |END_MARKER|..] + END_MARKER + tail;
      Rejoined(a, START_MARKER, f, mid, END_MARKER, f[q.value + |END_MARKER|..], tail);
    } else {
      NeverFound(f, END_MARKER);
    }
    MarkersAreMarkers();
    TooShort(a, START_MARKER);
    TooShort(a, END_MARKER);
    Enclosed(a, START_MARKER, mid, END_MARKER, z);
    BuildsWhen(t, f, url);
    RoundTrip(t, f, url);
  }

  lemma NeverFound(s: string, pat: string)
    requires Find(s, pat).None?
    ensures Absent(s, pat)
  {
  }

  lemma TooShort(s: string, pat: string)
    requires |s| < |pat|
    ensures Absent(s, pat)
  {
  }

  /** The characters that delimit tags are only themselves to a search. */
  ghost predicate Plain(t: Text) {
    && (forall c :: (t.lower(c) == '<' <==> c == '<') && (t.lower(c) == '/' <==> c == '/'))
    && t.lower('>') == '>' && !t.space('>')
  }

  lemma {:induction false} SkipSpaceIs(t: Text, s: string, from: nat, r: nat)
    requires from <= r < |s| && !t.space(s[r]) && forall i :: from <= i < r ==> t.space(s[i])
    ensures SkipSpace(t, s, from) == r
    decreases r - from
  {
    if from < r {
      SkipSpaceIs(t, s, from + 1, r);
    }
  }

  function CloseEnd(t: Text, s: string, name: string, p: nat): nat {
    if p + 2 + |name| <= |s| then SkipSpace(t, s, p + 2 + |name|) + 1 else p + 1
  }

  /** A closing tag begins with its two characters and ends at its only '>'. */
  lemma ClosesText(t: Text, s: string, name: string, p: nat)
    requires Plain(t) && '>' !in name && ClosesAt(t, s, name, p)
    ensures var e := CloseEnd(t, s, name, p);
            p + 2 < e <= |s| && s[p] == '<' && s[p + 1] == '/' && s[e - 1] == '>' && forall i :: p <= i < e - 1 ==> s[i] != '>'
  {
    var pat := "</" + name;
    forall k | 0 <= k < |pat| ensures t.lower(s[p + k]) == pat[k] {
      CharAt(Lowered(t, s), p, pat, k);
    }
    forall i | p <= i < p + |pat| ensures s[i] != '>' {
      assert t.lower(s[p + (i - p)]) == pat[i - p];
    }
    assert t.lower(s[p + 0]) == pat[0] && t.lower(s[p + 1]) == pat[1];
  }

  lemma SameThere(s: string, p: nat, u: string, q: nat, n: nat, k: nat)
    requires p + n <= |s| && q + n <= |u| && s[p..p + n] == u[q..q + n] && k < n
    ensures u[q + k] == s[p + k]
  {
    assert u[q..q + n][k] == u[q + k] && s[p..p + n][k] == s[p + k];
  }

  /** A closing tag moved elsewhere is one there. */
  lemma ClosesMoves(t: Text, s: string, name: string, p: nat, u: string, q: nat)
    requires Plain(t) && ClosesAt(t, s, name, p)
    requires var n := CloseEnd(t, s, name, p) - p; p + n <= |s| && q + n <= |u| && s[p..p + n] == u[q..q + n]
    ensures ClosesAt(t, u, name, q) && CloseEnd(t, u, name, q) - q == CloseEnd(t, s, name, p) - p
  {
    hide Plain;
    var pat := "</" + name;
    var n := CloseEnd(t, s, name, p) - p;
    forall k | 0 <= k < |pat| ensures Lowered(t, u)[q + k] == pat[k] {
      CharAt(Lowered(t, s), p, pat, k);
      SameThere(s, p, u, q, n, k);
    }
    assert Lowered(t, u)[q..q + |pat|] == pat;
    SameThere(s, p, u, q, n, n - 1);
    forall i | q + |pat| <= i < q + n - 1 ensures t.space(u[i]) {
      SameThere(s, p, u, q, n, i - q);
    }
    SkipSpaceIs(t, u, q + |pat|, q + n - 1);
  }

  lemma CloseIs(t: Text, s: string, name: string, p: nat)
    requires ClosesAt(t, s, name, p) && forall q :: 0 <= q < p ==> !ClosesAt(t, s, name, q)
    ensures CloseTag(t, s, name, 0) == Some(Span(p, CloseEnd(t, s, name, p)))
  {
    hide ClosesAt, SkipSpace;
    var r := CloseTag(t, s, name, 0);
    assert r.Some? && r.value.start == p;
  }

  /** What is put in begins no closing tag. */
  predicate Quiet(ins: string) {
    ins != "" && ins[|ins| - 1] != '<' && forall i :: 0 <= i < |ins| - 1 ==> !(ins[i] == '<' && ins[i + 1] == '/')
  }

  /** A closing tag that begins before a '>' ends no later than there. */
  lemma StaysBefore(t: Text, s: string, name: string, p: nat, m: nat)
    requires Plain(t) && '>' !in name && ClosesAt(t, s, name, p) && p < m <= |s| && s[m - 1] == '>'
    ensures CloseEnd(t, s, name, p) <= m
  {
    ClosesText(t, s, name, p);
  }

  lemma InsertedParts(s: string, m: nat, ins: string, lo: nat, hi: nat)
    requires m <= |s| && lo <= hi
    ensures |Inserted(s, m, ins)| == |s| + |ins|
    ensures hi <= m ==> Inserted(s, m, ins)[lo..hi] == s[lo..hi]
    ensures m <= lo && hi <= |s| ==> Inserted(s, m, ins)[lo + |ins|..hi + |ins|] == s[lo..hi]
    ensures forall k :: 0 <= k < |ins| ==> Inserted(s, m, ins)[m + k] == ins[k]
  {
  }

  /** No closing tag begins in what was put in. */
  lemma NoneInside(t: Text, s: string, name: string, m: nat, ins: string, p: nat)
    requires Plain(t) && '>' !in name && Quiet(ins) && m <= p < m + |ins| && m <= |s|
    ensures !ClosesAt(t, Inserted(s, m, ins), name, p)
  {
    hide ClosesAt, CloseEnd, Plain;
    var u := Inserted(s, m, ins);
    assert u[p] == ins[p - m];
    assert p + 1 < m + |ins| ==> u[p + 1] == ins[p + 1 - m];
    if ClosesAt(t, u, name, p) {
      ClosesText(t, u, name, p);
    }
  }

  /** A closing tag of the text with an insertion behind a '>' is one of the text, there or further on. */
  lemma ClosesBack(t: Text, s: string, name: string, m: nat, ins: string, p: nat)
    requires Plain(t) && '>' !in name && Quiet(ins) && 0 < m <= |s| && s[m - 1] == '>'
    requires ClosesAt(t, Inserted(s, m, ins), name, p)
    ensures if p < m then ClosesAt(t, s, name, p) else p >= m + |ins| && ClosesAt(t, s, name, p - |ins|)
  {
    hide ClosesAt, CloseEnd, Plain, Quiet, Inserted;
    var u := Inserted(s, m, ins);
    ClosesText(t, u, name, p);
    var e := CloseEnd(t, u, name, p);
    InsertedParts(s, m, ins, m - 1, m);
    if p < m {
      assert u[m - 1..m] == [s[m - 1]];
      StaysBefore(t, u, name, p, m);
      InsertedParts(s, m, ins, p, e);
      ClosesMoves(t, u, name, p, s, p);
    } else if p < m + |ins| {
      NoneInside(t, s, name, m, ins, p);
    } else {
      InsertedParts(s, m, ins, p - |ins|, e - |ins|);
      ClosesMoves(t, u, name, p, s, p - |ins|);
    }
  }

  function Moved(c: Span, m: nat, k: nat): Span {
    if c.start < m then c else Span(c.start + k, c.end + k)
  }

  lemma ClosesForth(t: Text, s: string, name: string, m: nat, ins: string, p: nat)
    requires Plain(t) && '>' !in name && 0 < m <= |s| && s[m - 1] == '>' && ClosesAt(t, s, name, p)
    ensures var d := Moved(Span(p, CloseEnd(t, s, name, p)), m, |ins|);
            && p < CloseEnd(t, s, name, p) <= |s| && (p < m ==> CloseEnd(t, s, name, p) <= m)
            && ClosesAt(t, Inserted(s, m, ins), name, d.start) && CloseEnd(t, Inserted(s, m, ins), name, d.start) == d.end
  {
    hide ClosesAt, CloseEnd, Plain, Inserted;
    var e := CloseEnd(t, s, name, p);
    ClosesText(t, s, name, p);
    InsertedParts(s, m, ins, p, e);
    if p < m {
      StaysBefore(t, s, name, p, m);
      ClosesMoves(t, s, name, p, Inserted(s, m, ins), p);
    } else {
      ClosesMoves(t, s, name, p, Inserted(s, m, ins), p + |ins|);
    }
  }

  /** Putting text behind a '>' moves the first closing tag but keeps it the first. */
  lemma CloseAfterInsert(t: Text, s: string, name: string, m: nat, ins: string)
    requires Plain(t) && '>' !in name && Quiet(ins) && 0 < m <= |s| && s[m - 1] == '>' && CloseTag(t, s, name, 0).Some?
    ensures var c := CloseTag(t, s, name, 0).value;
            && CloseTag(t, Inserted(s, m, ins), name, 0) == Some(Moved(c, m, |ins|))
            && c.start < c.end <= |s| && (c.start < m ==> c.end <= m)
  {
    hide ClosesAt, CloseEnd, Plain, Quiet, Inserted;
    var c := CloseTag(t, s, name, 0).value;
    var u := Inserted(s, m, ins);
    CloseEnds(t, s, name);
    ClosesForth(t, s, name, m, ins, c.start);
    var q := Moved(c, m, |ins|).start;
    forall p: nat | p < q ensures !ClosesAt(t, u, name, p) {
      if ClosesAt(t, u, name, p) {
        ClosesBack(t, s, name, m, ins, p);
      }
    }
    CloseIs(t, u, name, q);
  }

  lemma CloseEnds(t: Text, s: string, name: string)
    requires CloseTag(t, s, name, 0).Some?
    ensures var c := CloseTag(t, s, name, 0).value;
            && ClosesAt(t, s, name, c.start) && c.end == CloseEnd(t, s, name, c.start)
            && forall p :: 0 <= p < c.start ==> !ClosesAt(t, s, name, p)
  {
  }

  lemma WrappedIs(t: Text, s: string, name: string, after: string, before: string, d: Span)
    requires Tagged(t, s, name) && CloseTag(t, Inserted(s, OpenTag(t, s, name, 0).value.end, after), name, 0) == Some(d)
    ensures var u := Inserted(s, OpenTag(t, s, name, 0).value.end, after);
            d.start <= d.end <= |u| && Wrapped(t, s, name, after, before) == Some(u[..d.start] + before + u[d.end..])
  {
    hide OpenTag, CloseTag, Inserted;
  }

  /** When the tags come in order, the wrapped text is put together around the two markers. */
  lemma WrappedInOrder(t: Text, s: string, name: string, pre: string, sm: string, em: string, post: string)
    requires Plain(t) && '>' !in name && Quiet(pre + sm) && Tagged(t, s, name)
    requires OpenTag(t, s, name, 0).value.end <= CloseTag(t, s, name, 0).value.start
    ensures var m, c := OpenTag(t, s, name, 0).value.end, CloseTag(t, s, name, 0).value;
            && m <= c.start <= c.end <= |s|
            && Wrapped(t, s, name, pre + sm, em + post) == Some((s[..m] + pre) + sm + s[m..c.start] + em + (post + s[c.end..]))
  {
    hide OpenTag, CloseTag, OpensAt, ClosesAt, SkipSpace, Plain, Quiet, Wrapped, Inserted, At, FindChar;
    var m, c := OpenTag(t, s, name, 0).value.end, CloseTag(t, s, name, 0).value;
    OpenEnds(t, s, name);
    CloseAfterInsert(t, s, name, m, pre + sm);
    WrappedIs(t, s, name, pre + sm, em + post, Moved(c, m, |pre + sm|));
    Assembled(s, m, pre, sm, c, em, post);
  }

  /** An insertion before a stretch of text, and then that stretch replaced. */
  lemma Assembled(s: string, m: nat, pre: string, sm: string, c: Span, em: string, post: string)
    requires m <= c.start <= c.end <= |s|
    ensures var u, k := Inserted(s, m, pre + sm), |pre + sm|;
            c.end + k <= |u| && u[..c.start + k] + (em + post) + u[c.end + k..] == (s[..m] + pre) + sm + s[m..c.start] + em + (post + s[c.end..])
  {
    var u, k := Inserted(s, m, pre + sm), |pre + sm|;
    assert u[..c.start + k] == (s[..m] + pre) + sm + s[m..c.start];
    assert u[c.end + k..] == s[c.end..];
    Regroup((s[..m] + pre) + sm + s[m..c.start], em, post, s[c.end..]);
  }

  lemma Regroup(a: string, b: string, c: string, d: string)
    ensures a + (b + c) + d == a + b + (c + d)
  {
  }

  lemma OpenEnds(t: Text, s: string, name: string)
    requires OpenTag(t, s, name, 0).Some?
    ensures var m := OpenTag(t, s, name, 0).value.end; 0 < m <= |s| && s[m - 1] == '>'
  {
  }

  /** When the closing tag comes first, so does the end marker. */
  lemma WrappedOutOfOrder(t: Text, s: string, name: string, pre: string, sm: string, em: string, post: string)
    requires Plain(t) && '>' !in name && Quiet(pre + sm) && Tagged(t, s, name)
    requires CloseTag(t, s, name, 0).value.start < OpenTag(t, s, name, 0).value.end
    ensures var c := CloseTag(t, s, name, 0).value.start;
            && c <= |s|
            && exists z :: Wrapped(t, s, name, pre + sm, em + post) == Some(s[..c] + em + z)
  {
    hide OpenTag, CloseTag, OpensAt, ClosesAt, SkipSpace, Plain, Quiet, Wrapped, Inserted, At, FindChar;
    var m, c := OpenTag(t, s, name, 0).value.end, CloseTag(t, s, name, 0).value;
    OpenEnds(t, s, name);
    CloseAfterInsert(t, s, name, m, pre + sm);
    WrappedIs(t, s, name, pre + sm, em + post, c);
    var u := Inserted(s, m, pre + sm);
    InsertedParts(s, m, pre + sm, 0, c.start);
    assert u[0..c.start] == u[..c.start] && s[0..c.start] == s[..c.start];
    Regroup(s[..c.start], em, post, u[c.end..]);
  }

  lemma EndFirst(a: string, em: string, z: string, sm: string)
    requires Marker(sm) && Marker(em) && |sm| > 4 && |em| > 4 && sm[4] != em[4] && Absent(a, sm) && Absent(a, em)
    ensures Find(a + em + z, em) == Some(|a|) && (Find(a + em + z, sm).Some? ==> Find(a + em + z, sm).value > |a|)
  {
    FoundThere(a, em, z);
    var v := a + em + z;
    assert v == a + (em + z) && v[|a| + 4] == em[4];
    if Find(v, sm).Some? {
      var p := Find(v, sm).value;
      if p < |a| {
        NotInFront(a, em + z, sm, p);
      } else if p == |a| {
        CharAt(v, p, sm, 4);
      }
    }
  }

  /** Text without markers whose tags of a name decide: a payload is built exactly when the first opening tag
      ends before the first closing tag begins, and then the fragment is exactly what stands between. */
  lemma TaggedFragment(t: Text, f: string, url: string, name: string)
    requires Plain(t) && Find(f, START_MARKER).None? && Find(f, END_MARKER).None?
    requires Tagged(t, f, name) && (name == "body" || (name == "html" && !Tagged(t, f, "body")))
    ensures var m, c := OpenTag(t, f, name, 0).value.end, CloseTag(t, f, name, 0).value.start;
            && (Build(t, f, url).Some? <==> m <= c)
            && (m <= c && Fits(t, f, url) ==>
                  && Parse(Build(t, f, url).value).Some?
                  && c <= |f| && Parse(Build(t, f, url).value).value.fragment == f[m..c])
  {
    hide Header, Padded, Field, Find, Parse, Build, Absent, Marker, At, EnsureMarkers, OpenTag, CloseTag, Wrapped, Plain, Quiet;
    var m, c := OpenTag(t, f, name, 0).value.end, CloseTag(t, f, name, 0).value.start;
    var pre, post := if name == "body" then "" else "<body>", if name == "body" then "</body>" else "</body></html>";
    TaggedText(t, f, name, pre, post);
    QuietInserts(pre);
    MarkersAreMarkers();
    BuildsWhen(t, f, url);
    if m <= c {
      TaggedInOrder(t, f, name, pre, post);
      if Fits(t, f, url) {
        RoundTrip(t, f, url);
      }
    } else {
      WrappedOutOfOrder(t, f, name, pre, START_MARKER, END_MARKER, post);
      var z :| Wrapped(t, f, name, pre + START_MARKER, END_MARKER + post) == Some(f[..c] + END_MARKER + z);
      PartHasNone(f, 0, c, START_MARKER);
      PartHasNone(f, 0, c, END_MARKER);
      assert f[0..c] == f[..c];
      EndFirst(f[..c], END_MARKER, z, START_MARKER);
    }
  }

  lemma PartHasNone(f: string, lo: nat, hi: nat, pat: string)
    requires Find(f, pat).None? && lo <= hi <= |f|
    ensures Absent(f[lo..hi], pat)
  {
    NeverFound(f, pat);
    AbsentPart(f, lo, hi, pat);
  }

  lemma QuietInserts(pre: string)
    requires pre == "" || pre == "<body>"
    ensures Quiet(pre + START_MARKER)
  {
  }

  lemma TaggedText(t: Text, f: string, name: string, pre: string, post: string)
    requires Find(f, START_MARKER).None? && Tagged(t, f, name) && (name == "body" || (name == "html" && !Tagged(t, f, "body")))
    requires pre == (if name == "body" then "" else "<body>") && post == (if name == "body" then "</body>" else "</body></html>")
    ensures Wrapped(t, f, name, pre + START_MARKER, END_MARKER + post) == Some(EnsureMarkers(t, f))
  {
    hide Find, OpenTag, CloseTag;
    assert "" + START_MARKER == START_MARKER;
  }

  lemma TaggedInOrder(t: Text, f: string, name: string, pre: string, post: string)
    requires Plain(t) && '>' !in name && Find(f, START_MARKER).None? && Find(f, END_MARKER).None? && Tagged(t, f, name)
    requires Wrapped(t, f, name, pre + START_MARKER, END_MARKER + post) == Some(EnsureMarkers(t, f))
    requires (pre == "" || pre == "<body>") && Quiet(pre + START_MARKER)
    requires OpenTag(t, f, name, 0).value.end <= CloseTag(t, f, name, 0).value.start
    ensures var m, c := OpenTag(t, f, name, 0).value.end, CloseTag(t, f, name, 0).value.start;
            var html := EnsureMarkers(t, f);
            var s, e := Find(html, START_MARKER), Find(html, END_MARKER);
            && m <= c <= |f| && s.Some? && e.Some? && s.value + |START_MARKER| <= e.value <= |html|
            && html[s.value + |START_MARKER|..e.value] == f[m..c]
  {
    hide Find, Absent, Marker, At, EnsureMarkers, OpenTag, CloseTag, Wrapped, Plain, Quiet;
    var m, c := OpenTag(t, f, name, 0).value.end, CloseTag(t, f, name, 0).value;
    WrappedInOrder(t, f, name, pre, START_MARKER, END_MARKER, post);
    MarkersAreMarkers();
    FrontHasNone(f, m, pre, START_MARKER);
    FrontHasNone(f, m, pre, END_MARKER);
    PartHasNone(f, m, c.start, END_MARKER);
    Enclosed(f[..m] + pre, START_MARKER, f[m..c.start], END_MARKER, post + f[c.end..]);
  }

  lemma FrontHasNone(f: string, m: nat, pre: string, pat: string)
    requires Find(f, pat).None? && m <= |f| && (pre == "" || pre == "<body>") && Marker(pat) && |pat| > 6 && pat[1] == '!'
    ensures Absent(f[..m] + pre, pat)
  {
    PartHasNone(f, 0, m, pat);
    assert f[0..m] == f[..m];
    if pre == "" {
      assert f[..m] + pre == f[..m];
    } else {
      TooShort(pre, pat);
      AbsentJoin(f[..m], pre, pat);
    }
  }
}
