/** Text preparation of api/src/services/document.service.ts: choosing an
    extractor from the file extension, normalising whitespace (`cleanText`)
    and cutting text into overlapping windows (`chunkText`, `splitText`). */
module DocumentService {
  import opened Js

  // ---------------------------------------------------------------------
  // Extension dispatch
  // ---------------------------------------------------------------------

  datatype FileKind = Pdf | Docx | Txt | Excel

  /** The libraries behind each kind, as opaque functions: pdf-parse, mammoth,
      XLSX (sheets as CSV joined by newlines) and `buffer.toString('utf-8')`.
      The first three reject a malformed file with an error. */
  datatype Extractors = Extractors(
    pdf: Bytes -> Result<string>,
    docx: Bytes -> Result<string>,
    excel: Bytes -> Result<string>,
    utf8: Bytes -> string)

  const SUPPORTED_EXTENSIONS: set<string> := {"pdf", "docx", "txt", "xlsx", "xls"}

  /** `filename.split('.').pop()?.toLowerCase()`: the lower-cased text after
      the last dot; a name with no dot is its own extension. */
  function Extension(filename: string): (ext: string)
    ensures |ext| <= |filename|
    ensures '.' !in ext
  {
    LowerAscii(AfterLast(filename, '.'))
  }

  /** The kind each supported extension selects. */
  function KindOf(ext: string): (k: Option<FileKind>)
    ensures k.Some? <==> ext in SUPPORTED_EXTENSIONS
  {
    if ext == "pdf" then Some(Pdf)
    else if ext == "docx" then Some(Docx)
    else if ext == "txt" then Some(Txt)
    else if ext == "xlsx" || ext == "xls" then Some(Excel)
    else None
  }

  /** The `switch (ext)` of extractText: a kind for the five supported
      extensions, otherwise the "Unsupported file type" error naming the
      lower-cased extension. */
  function Classify(filename: string): (r: Result<FileKind>)
    ensures r.Ok? <==> Extension(filename) in SUPPORTED_EXTENSIONS
    ensures r.Ok? ==> Some(r.value) == KindOf(Extension(filename))
    ensures r.Err? ==> r.error == "Unsupported file type: " + Extension(filename)
  {
    var ext := Extension(filename);
    var k := KindOf(ext);
    if k.Some? then Ok(k.value) else Err("Unsupported file type: " + ext)
  }

  /** The extension of `base + "." + ext` is `ext`, lower-cased, whatever `base` is. */
  lemma ExtensionAfterLastDot(base: string, ext: string)
    requires '.' !in ext
    ensures Extension(base + "." + ext) == LowerAscii(ext)
  {
    var name := base + "." + ext;
    var tail := AfterLast(name, '.');
    assert name[|name| - |ext|..] == ext;
    assert name[|name| - |ext| - 1] == '.';
    assert tail == ext;
  }

  /** Dispatch ignores the case of the extension and everything before the
      last dot: `report.PDF` and `a.b.pdf` both select the PDF extractor. */
  lemma ClassifyIgnoresCaseAndBase(base: string, ext: string)
    requires '.' !in ext
    ensures Classify(base + "." + ext) == Classify(LowerAscii(ext))
  {
    ExtensionAfterLastDot(base, ext);
    var low := LowerAscii(ext);
    LowerKeepsDots(ext);
    ExtensionOfExtension(low);
    SameExtensionSameKind(base + "." + ext, low);
  }

  lemma LowerKeepsDots(s: string)
    requires '.' !in s
    ensures '.' !in LowerAscii(s)
  {
    var low := LowerAscii(s);
    forall i | 0 <= i < |low| ensures low[i] != '.' {
      assert s[i] != '.';
    }
  }

  /** A lower-case name without a dot is its own extension. */
  lemma ExtensionOfExtension(low: string)
    requires '.' !in low && low == LowerAscii(low)
    ensures Extension(low) == low
  {
    assert AfterLast(low, '.') == low;
  }

  lemma SameExtensionSameKind(a: string, b: string)
    requires Extension(a) == Extension(b)
    ensures Classify(a) == Classify(b)
  {
  }

  /** `Report.PDF` is read as a PDF. */
  lemma UpperCasePdfIsPdf(base: string)
    ensures Classify(base + ".PDF") == Ok(Pdf)
  {
    assert base + ".PDF" == base + "." + "PDF";
    ExtensionAfterLastDot(base, "PDF");
    var low := LowerAscii("PDF");
    assert low == "pdf" by {
      assert |low| == 3 && low[0] == 'p' && low[1] == 'd' && low[2] == 'f';
    }
    assert KindOf(low) == Some(Pdf);
  }

  /** `extractText(buffer, filename)`: the unsupported-type error comes before
      any library runs; otherwise the result is that of the extractor the
      extension selects, errors included. */
  function ExtractText(buffer: Bytes, filename: string, ex: Extractors): (r: Result<string>)
    ensures Classify(filename).Err? ==> r == Err(Classify(filename).error)
    ensures Classify(filename) == Ok(Pdf) ==> r == ex.pdf(buffer)
    ensures Classify(filename) == Ok(Docx) ==> r == ex.docx(buffer)
    ensures Classify(filename) == Ok(Txt) ==> r == Ok(ex.utf8(buffer))
    ensures Classify(filename) == Ok(Excel) ==> r == ex.excel(buffer)
  {
    match Classify(filename)
    case Err(e) => Err(e)
    case Ok(Pdf) => ex.pdf(buffer)
    case Ok(Docx) => ex.docx(buffer)
    case Ok(Txt) => Ok(ex.utf8(buffer))
    case Ok(Excel) => ex.excel(buffer)
  }

  // ---------------------------------------------------------------------
  // cleanText
  // ---------------------------------------------------------------------

  /** `.replace(/\r\n/g, '\n')`, scanning left to right. */
  function ReplaceCrlf(s: string): (r: string)
    ensures Visible(r) == Visible(s)
    ensures r != [] <==> s != []
    ensures s != [] ==> (r[0] == '\n' <==> s[0] == '\n' || (|s| >= 2 && s[0] == '\r' && s[1] == '\n'))
  {
    if s == [] then []
    else if |s| >= 2 && s[0] == '\r' && s[1] == '\n' then
      assert Visible(s) == Visible(s[2..]);
      "\n" + ReplaceCrlf(s[2..])
    else
      VisibleAppend([s[0]], ReplaceCrlf(s[1..]));
      assert s == [s[0]] + s[1..];
      VisibleAppend([s[0]], s[1..]);
      [s[0]] + ReplaceCrlf(s[1..])
  }

  /** The two character classes whose runs cleanText collapses. */
  datatype RunKind = Newlines | Blanks

  /** `\n` for `/\n{2,}/g`; tab and space for `/[\t ]+/g`. */
  predicate InRun(k: RunKind, c: char) {
    match k
    case Newlines => c == '\n'
    case Blanks => c == '\t' || c == ' '
  }

  function Replacement(k: RunKind): char {
    match k
    case Newlines => '\n'
    case Blanks => ' '
  }

  /** `s` without its leading run of `k` characters. */
  function DropRun(s: string, k: RunKind): (r: string)
    ensures |r| <= |s| && r == s[|s| - |r|..]
    ensures r != [] ==> !InRun(k, r[0])
    ensures forall i | 0 <= i < |s| - |r| :: InRun(k, s[i])
  {
    if s != [] && InRun(k, s[0]) then DropRun(s[1..], k) else s
  }

  /** Every maximal run of `k` characters replaced by one replacement character.
      For newlines this is `/\n{2,}/g -> '\n'` (a lone newline is its own
      replacement); for blanks it is `/[\t ]+/g -> ' '`. */
  function CollapseRuns(s: string, k: RunKind): (r: string)
    ensures r != [] <==> s != []
    ensures s != [] ==> r[0] == (if InRun(k, s[0]) then Replacement(k) else s[0])
    decreases |s|
  {
    if s == [] then []
    else if InRun(k, s[0]) then [Replacement(k)] + CollapseRuns(DropRun(s, k), k)
    else [s[0]] + CollapseRuns(s[1..], k)
  }

  /** After collapsing, a run character is the replacement and is never
      followed by another run character. */
  predicate RunsCollapsed(r: string, k: RunKind) {
    forall i | 0 <= i < |r| :: InRun(k, r[i]) ==> r[i] == Replacement(k) && (i + 1 < |r| ==> !InRun(k, r[i + 1]))
  }

  lemma {:induction false} CollapseRunsCollapses(s: string, k: RunKind)
    ensures RunsCollapsed(CollapseRuns(s, k), k)
    decreases |s|
  {
    if s == [] {
    } else if InRun(k, s[0]) {
      var d := DropRun(s, k);
      CollapseRunsCollapses(d, k);
      RunsCollapsedCons(Replacement(k), CollapseRuns(d, k), k);
    } else {
      CollapseRunsCollapses(s[1..], k);
      RunsCollapsedCons(s[0], CollapseRuns(s[1..], k), k);
    }
  }

  lemma RunsCollapsedCons(c: char, t: string, k: RunKind)
    requires RunsCollapsed(t, k)
    requires InRun(k, c) ==> c == Replacement(k) && (t != [] ==> !InRun(k, t[0]))
    ensures RunsCollapsed([c] + t, k)
  {
    var r := [c] + t;
    forall i | 0 <= i < |r| && InRun(k, r[i])
      ensures r[i] == Replacement(k) && (i + 1 < |r| ==> !InRun(k, r[i + 1]))
    {
      if i > 0 { assert r[i] == t[i - 1]; }
    }
  }

  /** Putting `c` in front of `t` makes no new x-y pair unless `c` is x and `t` starts with y. */
  lemma NoPairCons(c: char, t: string, x: char, y: char)
    requires NoPair(t, x, y)
    requires t != [] && c == x ==> t[0] != y
    ensures NoPair([c] + t, x, y)
  {
    var r := [c] + t;
    forall i | 0 <= i < |r| - 1 ensures !(r[i] == x && r[i + 1] == y) {
      if i > 0 { assert r[i] == t[i - 1] && r[i + 1] == t[i]; }
    }
  }

  /** A pair of characters outside the run class is adjacent in the output only
      if it was adjacent in the input. */
  lemma {:induction false} CollapseRunsKeepsNoPair(s: string, k: RunKind, x: char, y: char)
    requires !InRun(k, x) && !InRun(k, y)
    requires NoPair(s, x, y)
    ensures NoPair(CollapseRuns(s, k), x, y)
    decreases |s|
  {
    if s == [] {
    } else if InRun(k, s[0]) {
      var d := DropRun(s, k);
      NoPairInfix(s, |s| - |d|, d, x, y);
      CollapseRunsKeepsNoPair(d, k, x, y);
      assert InRun(k, Replacement(k));
      NoPairCons(Replacement(k), CollapseRuns(d, k), x, y);
    } else {
      var t := s[1..];
      NoPairInfix(s, 1, t, x, y);
      CollapseRunsKeepsNoPair(t, k, x, y);
      assert InRun(k, Replacement(k));
      NoPairCons(s[0], CollapseRuns(t, k), x, y);
    }
  }

  /** No `x` of `s` is immediately followed by a run character. */
  predicate NeverBeforeRun(s: string, x: char, k: RunKind) {
    forall i | 0 <= i < |s| - 1 :: s[i] == x ==> !InRun(k, s[i + 1])
  }

  lemma NeverBeforeRunInfix(s: string, a: nat, r: string, x: char, k: RunKind)
    requires a + |r| <= |s| && r == s[a..a + |r|]
    requires NeverBeforeRun(s, x, k)
    ensures NeverBeforeRun(r, x, k)
  {
    forall i | 0 <= i < |r| - 1 && r[i] == x ensures !InRun(k, r[i + 1]) {
      assert r[i] == s[a + i] && r[i + 1] == s[a + i + 1];
    }
  }

  lemma NeverBeforeRunCons(c: char, t: string, x: char, k: RunKind)
    requires NeverBeforeRun(t, x, k)
    requires t != [] && c == x ==> !InRun(k, t[0])
    ensures NeverBeforeRun([c] + t, x, k)
  {
    var r := [c] + t;
    forall i | 0 <= i < |r| - 1 && r[i] == x ensures !InRun(k, r[i + 1]) {
      if i > 0 { assert r[i] == t[i - 1] && r[i + 1] == t[i]; }
    }
  }

  lemma {:induction false} CollapseRunsKeepsNeverBeforeRun(s: string, k: RunKind, x: char)
    requires !InRun(k, x)
    requires NeverBeforeRun(s, x, k)
    ensures NeverBeforeRun(CollapseRuns(s, k), x, k)
    decreases |s|
  {
    if s == [] {
    } else if InRun(k, s[0]) {
      var d := DropRun(s, k);
      NeverBeforeRunInfix(s, |s| - |d|, d, x, k);
      CollapseRunsKeepsNeverBeforeRun(d, k, x);
      NeverBeforeRunCons(Replacement(k), CollapseRuns(d, k), x, k);
    } else {
      var t := s[1..];
      NeverBeforeRunInfix(s, 1, t, x, k);
      CollapseRunsKeepsNeverBeforeRun(t, k, x);
      NeverBeforeRunCons(s[0], CollapseRuns(t, k), x, k);
    }
  }

  /** Collapsing runs of whitespace characters loses no visible character. */
  lemma {:induction false} CollapseRunsKeepsVisible(s: string, k: RunKind)
    ensures Visible(CollapseRuns(s, k)) == Visible(s)
    decreases |s|
  {
    if s == [] {
    } else if InRun(k, s[0]) {
      var d := DropRun(s, k);
      CollapseRunsKeepsVisible(d, k);
      DropRunKeepsVisible(s, k, d);
      VisibleAppend([Replacement(k)], CollapseRuns(d, k));
    } else {
      CollapseRunsKeepsVisible(s[1..], k);
      VisibleAppend([s[0]], CollapseRuns(s[1..], k));
      assert s == [s[0]] + s[1..];
      VisibleAppend([s[0]], s[1..]);
    }
  }

  lemma DropRunKeepsVisible(s: string, k: RunKind, d: string)
    requires d == DropRun(s, k)
    ensures Visible(d) == Visible(s)
  {
    var n := |s| - |d|;
    assert s == s[..n] + d;
    assert AllSpace(s[..n]) by {
      forall i | 0 <= i < n ensures IsSpace(s[..n][i]) { assert InRun(k, s[i]); }
    }
    VisibleOfSpaces(s[..n]);
    VisibleAppend(s[..n], d);
  }

  /** Without two carriage returns in a row, no CRLF survives `\r\n -> \n`. */
  lemma {:induction false} ReplaceCrlfRemovesCrlf(s: string)
    requires NoPair(s, '\r', '\r')
    ensures NoPair(ReplaceCrlf(s), '\r', '\n')
    decreases |s|
  {
    if s == [] {
    } else if |s| >= 2 && s[0] == '\r' && s[1] == '\n' {
      var t := s[2..];
      NoPairInfix(s, 2, t, '\r', '\r');
      ReplaceCrlfRemovesCrlf(t);
      NoPairCons('\n', ReplaceCrlf(t), '\r', '\n');
    } else {
      var t := s[1..];
      NoPairInfix(s, 1, t, '\r', '\r');
      ReplaceCrlfRemovesCrlf(t);
      NoPairCons(s[0], ReplaceCrlf(t), '\r', '\n');
    }
  }

  /** A property of adjacent characters that holds of `s` holds of any slice of it. */
  lemma NoPairInfix(s: string, a: nat, r: string, x: char, y: char)
    requires a + |r| <= |s| && r == s[a..a + |r|]
    requires NoPair(s, x, y)
    ensures NoPair(r, x, y)
  {
    forall i | 0 <= i < |r| - 1 ensures !(r[i] == x && r[i + 1] == y) {
      assert r[i] == s[a + i] && r[i + 1] == s[a + i + 1];
    }
  }

  /** What cleanText promises of its output. */
  predicate IsClean(r: string) {
    && NoPair(r, '\n', '\n')
    && '\t' !in r
    && NoPair(r, ' ', ' ')
    && (r != [] ==> !IsSpace(r[0]) && !IsSpace(r[|r| - 1]))
  }

  /** `cleanText(text)`: empty stays empty; otherwise the result has no blank
      line, no tab, no double space and no whitespace at either end, and it
      keeps every visible character of the input in order. */
  function CleanText(text: string): (r: string)
    ensures text == [] ==> r == []
    ensures IsClean(r)
    ensures Visible(r) == Visible(text)
  {
    if text == [] then []
    else
      var a := ReplaceCrlf(text);
      var b := CollapseRuns(a, Newlines);
      var c := CollapseRuns(b, Blanks);
      CleanTextFacts(a, b, c);
      Trim(c)
  }

  lemma CleanTextFacts(a: string, b: string, c: string)
    requires b == CollapseRuns(a, Newlines) && c == CollapseRuns(b, Blanks)
    ensures IsClean(Trim(c))
    ensures Visible(Trim(c)) == Visible(a)
  {
    CollapseRunsKeepsVisible(a, Newlines);
    CollapseRunsKeepsVisible(b, Blanks);
    TrimIsInfix(c);
    CollapseRunsCollapses(a, Newlines);
    CollapsedIsClean(b, c);
  }

  lemma CollapsedIsClean(b: string, c: string)
    requires RunsCollapsed(b, Newlines)
    requires c == CollapseRuns(b, Blanks)
    ensures IsClean(Trim(c))
  {
    CollapsedNewlines(b);
    CollapseRunsKeepsNoPair(b, Blanks, '\n', '\n');
    CollapseRunsCollapses(b, Blanks);
    CollapsedBlanks(c);
    var r := Trim(c);
    var o := TrimOffset(c);
    TrimFacts(c);
    TrimIsInfix(c);
    NoPairInfix(c, o, r, '\n', '\n');
    NoPairInfix(c, o, r, ' ', ' ');
    NoTabInfix(c, o, r);
  }

  lemma CollapsedNewlines(b: string)
    requires RunsCollapsed(b, Newlines)
    ensures NoPair(b, '\n', '\n')
  {
    forall i | 0 <= i < |b| - 1 ensures !(b[i] == '\n' && b[i + 1] == '\n') {
      assert InRun(Newlines, b[i]) ==> !InRun(Newlines, b[i + 1]);
    }
  }

  lemma CollapsedBlanks(c: string)
    requires RunsCollapsed(c, Blanks)
    ensures NoPair(c, ' ', ' ') && '\t' !in c
  {
    forall i | 0 <= i < |c| ensures c[i] != '\t' && (i + 1 < |c| ==> !(c[i] == ' ' && c[i + 1] == ' ')) {
      assert InRun(Blanks, c[i]) ==> c[i] == ' ';
    }
  }

  lemma NoTabInfix(c: string, o: nat, r: string)
    requires o + |r| <= |c| && r == c[o..o + |r|]
    requires '\t' !in c
    ensures '\t' !in r
  {
    forall i | 0 <= i < |r| ensures r[i] != '\t' {
      assert r[i] == c[o + i];
    }
  }

  /** "No CR before LF" read as a property of adjacent characters and of runs. */
  lemma NoCrlfIsNeverBeforeNewline(s: string)
    ensures NoPair(s, '\r', '\n') <==> NeverBeforeRun(s, '\r', Newlines)
  {
  }

  /** The carriage-return property: when the input never has two CRs in a row,
      cleanText leaves no CRLF. */
  lemma CleanTextRemovesCrlf(text: string)
    requires NoPair(text, '\r', '\r')
    ensures NoPair(CleanText(text), '\r', '\n')
  {
    if text != [] {
      var a := ReplaceCrlf(text);
      var b := CollapseRuns(a, Newlines);
      var c := CollapseRuns(b, Blanks);
      ReplaceCrlfRemovesCrlf(text);
      NoCrlfIsNeverBeforeNewline(a);
      CollapseRunsKeepsNeverBeforeRun(a, Newlines, '\r');
      NoCrlfIsNeverBeforeNewline(b);
      CollapseRunsKeepsNoPair(b, Blanks, '\r', '\n');
      TrimIsInfix(c);
      NoPairInfix(c, TrimOffset(c), Trim(c), '\r', '\n');
    }
  }

  // ---------------------------------------------------------------------
  // chunkText and splitText
  // ---------------------------------------------------------------------

  /** The slices the `while (start < text.length)` loop pushes, from `start` on:
      `text.slice(start, min(start + size, len))`, advancing by
      `size - overlap`. */
  function WindowsFrom(text: string, size: int, overlap: int, start: nat): seq<string>
    requires overlap < size
    decreases |text| - start
  {
    if start >= |text| then []
    else [Slice(text, start, Min(start + size, |text|))] + WindowsFrom(text, size, overlap, start + (size - overlap))
  }

  function Windows(text: string, size: int, overlap: int): seq<string>
    requires overlap < size
  {
    WindowsFrom(text, size, overlap, 0)
  }

  /** `chunks.filter(Boolean)`: drops the empty strings. */
  function NonEmptyOnly(chunks: seq<string>): (r: seq<string>)
    ensures forall i | 0 <= i < |r| :: r[i] != []
    ensures |r| <= |chunks|
  {
    if chunks == [] then []
    else (if chunks[0] != [] then [chunks[0]] else []) + NonEmptyOnly(chunks[1..])
  }

  /** `chunkText(text, chunkSize = 500, overlap = 100)`. The loop only ends when
      it advances, so `overlap < chunkSize` is required. */
  method ChunkText(text: string, chunkSize: int := 500, overlap: int := 100) returns (chunks: seq<string>)
    requires overlap < chunkSize
    ensures chunks == NonEmptyOnly(Windows(text, chunkSize, overlap))
  {
    var pushed: seq<string> := [];
    var start: nat := 0;
    while start < |text|
      invariant pushed + WindowsFrom(text, chunkSize, overlap, start) == WindowsFrom(text, chunkSize, overlap, 0)
      decreases |text| - start
    {
      var end := Min(start + chunkSize, |text|);
      pushed := pushed + [Slice(text, start, end)];
      start := start + (chunkSize - overlap);
    }
    assert pushed == pushed + WindowsFrom(text, chunkSize, overlap, start);
    chunks := NonEmptyOnly(pushed);
  }

  /** `splitText(text, chunkSize = 300, overlap = 50)`: the same windows with
      the smaller defaults. */
  method SplitText(text: string, chunkSize: int := 300, overlap: int := 50) returns (chunks: seq<string>)
    requires overlap < chunkSize
    ensures chunks == NonEmptyOnly(Windows(text, chunkSize, overlap))
  {
    chunks := ChunkText(text, chunkSize, overlap);
  }

  /** ceil(n / d) for a positive divisor, 0 when n <= 0: how many steps of
      length d it takes to pass n. */
  function CeilDiv(n: int, d: int): nat
    requires d > 0
    decreases n
  {
    if n <= 0 then 0 else 1 + CeilDiv(n - d, d)
  }

  /** CeilDiv is the ceiling of the quotient: the least count whose multiple reaches n. */
  lemma {:induction false} CeilDivIsCeiling(n: int, d: int)
    requires d > 0 && n > 0
    ensures (CeilDiv(n, d) - 1) * d < n <= CeilDiv(n, d) * d
    decreases n
  {
    if n - d > 0 {
      CeilDivIsCeiling(n - d, d);
      var q := CeilDiv(n - d, d);
      assert (q + 1) * d == q * d + d;
    }
  }

  /** The number of windows from `start` on. */
  lemma {:induction false} WindowsFromCount(text: string, size: int, overlap: int, start: nat)
    requires overlap < size
    ensures |WindowsFrom(text, size, overlap, start)| == CeilDiv(|text| - start, size - overlap)
    decreases |text| - start
  {
    if start < |text| {
      WindowsFromCount(text, size, overlap, start + (size - overlap));
    }
  }

  /** Where window i from `start` on begins: `start + i * step`. */
  function WindowStart(start: int, step: int, i: nat): (p: int)
    ensures step >= 0 ==> p >= start
  {
    if i == 0 then start else WindowStart(start, step, i - 1) + step
  }

  lemma {:induction false} WindowStartIsProduct(start: int, step: int, i: nat)
    ensures WindowStart(start, step, i) == start + i * step
  {
    if i > 0 {
      WindowStartIsProduct(start, step, i - 1);
      StepMultiple(start, step, i);
    }
  }

  lemma StepMultiple(start: int, step: int, i: nat)
    requires i > 0
    ensures start + (i - 1) * step + step == start + i * step
  {
  }

  /** Window i from `start` on is the text from WindowStart(start, size - overlap, i),
      at most `size` characters long. */
  lemma {:induction false} WindowsFromAt(text: string, size: int, overlap: int, start: nat, i: nat, p: int)
    requires 0 < size && overlap < size
    requires i < |WindowsFrom(text, size, overlap, start)|
    requires p == WindowStart(start, size - overlap, i)
    ensures 0 <= p < |text|
    ensures WindowsFrom(text, size, overlap, start)[i] == text[p .. Min(p + size, |text|)]
    decreases i
  {
    if i == 0 {
      WindowsFromHead(text, size, overlap, start);
    } else {
      WindowsFromTail(text, size, overlap, start, i);
      WindowStartShift(start, size - overlap, i);
      WindowsFromAt(text, size, overlap, start + (size - overlap), i - 1, p);
    }
  }

  lemma WindowsFromHead(text: string, size: int, overlap: int, start: nat)
    requires 0 < size && overlap < size
    requires 0 < |WindowsFrom(text, size, overlap, start)|
    ensures start < |text|
    ensures WindowsFrom(text, size, overlap, start)[0] == text[start .. Min(start + size, |text|)]
  {
  }

  lemma WindowsFromTail(text: string, size: int, overlap: int, start: nat, i: nat)
    requires 0 < size && overlap < size
    requires 0 < i < |WindowsFrom(text, size, overlap, start)|
    ensures i - 1 < |WindowsFrom(text, size, overlap, start + (size - overlap))|
    ensures WindowsFrom(text, size, overlap, start)[i] == WindowsFrom(text, size, overlap, start + (size - overlap))[i - 1]
  {
  }

  lemma {:induction false} WindowStartShift(start: int, step: int, i: nat)
    requires i > 0
    ensures WindowStart(start + step, step, i - 1) == WindowStart(start, step, i)
  {
    if i > 1 {
      WindowStartShift(start, step, i - 1);
    }
  }

  /** Chunk i is `text[i*(size-overlap) .. min(i*(size-overlap)+size, len))`,
      non-empty and at most `size` long. */
  lemma ChunkAt(text: string, size: int, overlap: int, i: nat)
    requires 0 < size && overlap < size
    requires i < |Windows(text, size, overlap)|
    ensures var p := WindowStart(0, size - overlap, i);
      && p == i * (size - overlap) && p < |text|
      && Windows(text, size, overlap)[i] == text[p .. Min(p + size, |text|)]
      && 0 < |Windows(text, size, overlap)[i]| <= size
  {
    WindowsFromAt(text, size, overlap, 0, i, WindowStart(0, size - overlap, i));
    WindowStartIsProduct(0, size - overlap, i);
  }

  /** There are ceil(len/(size-overlap)) chunks, and since none is empty,
      `filter(Boolean)` keeps them all. */
  lemma ChunkCount(text: string, size: int, overlap: int)
    requires 0 < size && overlap < size
    ensures |Windows(text, size, overlap)| == CeilDiv(|text|, size - overlap)
    ensures NonEmptyOnly(Windows(text, size, overlap)) == Windows(text, size, overlap)
  {
    WindowsFromCount(text, size, overlap, 0);
    var w := Windows(text, size, overlap);
    forall i | 0 <= i < |w| ensures w[i] != [] {
      WindowsFromAt(text, size, overlap, 0, i, WindowStart(0, size - overlap, i));
    }
    NonEmptyOnlyKeepsNonEmpty(w);
  }

  lemma {:induction false} NonEmptyOnlyKeepsNonEmpty(s: seq<string>)
    requires forall i | 0 <= i < |s| :: s[i] != []
    ensures NonEmptyOnly(s) == s
  {
    if s != [] {
      NonEmptyOnlyKeepsNonEmpty(s[1..]);
    }
  }

  /** Empty text gives no chunk; text that fits in one step of the window
      (`len <= size - overlap`) is one chunk, itself. */
  lemma ChunkSmallText(text: string, size: int, overlap: int)
    requires overlap < size
    ensures text == [] ==> NonEmptyOnly(Windows(text, size, overlap)) == []
    ensures 0 < |text| <= size && |text| <= size - overlap ==> NonEmptyOnly(Windows(text, size, overlap)) == [text]
  {
    if 0 < |text| <= size && |text| <= size - overlap {
      var w := Windows(text, size, overlap);
      assert w == [Slice(text, 0, Min(size, |text|))] + WindowsFrom(text, size, overlap, size - overlap);
      assert WindowsFrom(text, size, overlap, size - overlap) == [];
      assert Slice(text, 0, Min(size, |text|)) == text[0..|text|] == text;
      assert w == [text];
      assert NonEmptyOnly(w) == [text] + NonEmptyOnly([]);
    }
  }

  /** Text shorter than the window but longer than one step is NOT one chunk
      when the overlap is positive: the second chunk repeats its tail. */
  lemma ShortTextSeveralChunks(text: string, size: int, overlap: int)
    requires 0 < overlap < size && size - overlap < |text| <= size
    ensures var c := NonEmptyOnly(Windows(text, size, overlap));
      |c| >= 2 && c[0] == text && c[1] == text[size - overlap..]
  {
    var step := size - overlap;
    ChunkCount(text, size, overlap);
    var w := Windows(text, size, overlap);
    var rest := WindowsFrom(text, size, overlap, step);
    assert w == [Slice(text, 0, Min(size, |text|))] + rest;
    assert rest == [Slice(text, step, Min(step + size, |text|))] + WindowsFrom(text, size, overlap, step + step);
    assert w[0] == text[0..|text|];
    assert w[1] == text[step..|text|];
  }

  /** Which window a position falls into: the quotient `p / step`. */
  function WindowOf(p: nat, step: int): (i: nat)
    requires step > 0
  {
    if p < step then 0 else 1 + WindowOf(p - step, step)
  }

  lemma {:induction false} WindowOfBounds(p: nat, step: int)
    requires step > 0
    ensures WindowStart(0, step, WindowOf(p, step)) <= p < WindowStart(0, step, WindowOf(p, step)) + step
  {
    if p >= step {
      WindowOfBounds(p - step, step);
      WindowStartShift(0, step, WindowOf(p, step));
      WindowStartOffset(step, WindowOf(p - step, step));
    }
  }

  /** Starting one step later shifts every window start by that step. */
  lemma {:induction false} WindowStartOffset(step: int, i: nat)
    ensures WindowStart(step, step, i) == WindowStart(0, step, i) + step
  {
    if i > 0 {
      WindowStartOffset(step, i - 1);
    }
  }

  lemma {:induction false} WindowOfIsQuotient(p: nat, step: int)
    requires step > 0
    ensures WindowOf(p, step) == p / step
  {
    var i := WindowOf(p, step);
    WindowOfBounds(p, step);
    WindowStartIsProduct(0, step, i);
    DivUnique(p, step, i);
  }

  lemma DivUnique(p: nat, d: int, q: nat)
    requires d > 0 && q * d <= p < q * d + d
    ensures p / d == q
  {
    var q' := p / d;
    assert q' * d <= p < q' * d + d;
    MulOrder(q', q, d);
    MulOrder(q, q', d);
  }

  lemma MulOrder(a: int, b: int, d: int)
    requires d > 0
    ensures a < b ==> a * d + d <= b * d
  {
    if a < b {
      MulMonotone(a + 1, b, d);
      assert (a + 1) * d == a * d + d;
    }
  }

  lemma MulMonotone(a: int, b: int, d: int)
    requires a <= b && d > 0
    ensures a * d <= b * d
  {
    assert b * d == a * d + (b - a) * d;
  }

  /** Some window from `start` contains each later position of the text. */
  lemma {:induction false} WindowsReachPosition(text: string, size: int, overlap: int, start: nat, p: nat)
    requires 0 < size && overlap < size && start <= p < |text|
    ensures WindowOf(p - start, size - overlap) < |WindowsFrom(text, size, overlap, start)|
    decreases p - start
  {
    var step := size - overlap;
    if p - start >= step {
      WindowsReachPosition(text, size, overlap, start + step, p);
    }
  }

  /** With a non-negative overlap the chunks leave no gap: position p of the
      text lies in chunk `i = p / (size - overlap)`, as its character `p - i*(size - overlap)`. */
  lemma ChunksCover(text: string, size: int, overlap: int, p: nat)
    requires 0 <= overlap < size && p < |text|
    ensures var w := Windows(text, size, overlap); var i := p / (size - overlap);
      && i < |w| && i * (size - overlap) <= p < i * (size - overlap) + |w[i]|
      && w[i][p - i * (size - overlap)] == text[p]
  {
    var step := size - overlap;
    var i := WindowOf(p, step);
    WindowOfIsQuotient(p, step);
    WindowsReachPosition(text, size, overlap, 0, p);
    WindowOfBounds(p, step);
    WindowsFromAt(text, size, overlap, 0, i, WindowStart(0, size - overlap, i));
    WindowStartIsProduct(0, step, i);
  }

  /** Two windows `step` apart, each at most `size` long: the end of the
      first is the start of the second. */
  lemma OverlapOfSlices(text: string, p: nat, q: nat, size: int, step: int, a: string, b: string)
    requires 0 < step <= size && q == p + step && q < |text|
    requires a == text[p..Min(p + size, |text|)] && b == text[q..Min(q + size, |text|)]
    ensures step <= |a| && |a| - step <= |b| && a[step..] == b[..|a| - step]
  {
    var e := Min(p + size, |text|);
    assert a[step..] == text[q..e];
    assert b[..|a| - step] == text[q..e];
  }

  /** Consecutive chunks overlap: what follows the first `size - overlap`
      characters of chunk i begins chunk i + 1. */
  lemma ChunksOverlap(text: string, size: int, overlap: int, i: nat)
    requires 0 <= overlap < size
    requires i + 1 < |Windows(text, size, overlap)|
    ensures var w := Windows(text, size, overlap); var step := size - overlap;
      && step <= |w[i]| && |w[i]| - step <= |w[i + 1]|
      && w[i][step..] == w[i + 1][..|w[i]| - step]
  {
    var step := size - overlap;
    var w := Windows(text, size, overlap);
    WindowsFromAt(text, size, overlap, 0, i, WindowStart(0, size - overlap, i));
    WindowsFromAt(text, size, overlap, 0, i + 1, WindowStart(0, size - overlap, i + 1));
    var p := WindowStart(0, step, i);
    var q := WindowStart(0, step, i + 1);
    OverlapOfSlices(text, p, q, size, step, w[i], w[i + 1]);
  }
}
