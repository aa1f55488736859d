/** Annotation records and their readers (entity_linker/commons.py, with the
    same BRAT reading code in entity_linker.py's `EntityLinker`).

    The filesystem is a parameter: `fs` maps the path of every regular file
    to its contents, and `listing` is what `os.listdir` returns for the
    annotations directory, in its order. A parsed JSON document of NER output
    is given as `NerDocument` values. */
module Commons {
  import opened Wrappers
  import opened Strings
  import opened Seqs

  datatype AnnotationSource = Brat | Ner

  datatype Annotation = Annotation(
    id: string, fileId: int, start: int, end: int, category: string, text: string, source: AnnotationSource)

  datatype AnnotatedDoc = AnnotatedDoc(id: int, path: string, text: string, annotations: seq<Annotation>)

  /** Every annotation of every document, in document order. */
  function AllAnnotations(docs: seq<AnnotatedDoc>): seq<Annotation>
    decreases |docs|
  {
    if docs == [] then [] else AllAnnotations(docs[..|docs| - 1]) + docs[|docs| - 1].annotations
  }

  /** Reading one more document appends its annotations. */
  lemma AllAnnotationsStep(docs: seq<AnnotatedDoc>, id: nat)
    requires id < |docs|
    ensures AllAnnotations(docs[..id + 1]) == AllAnnotations(docs[..id]) + docs[id].annotations
  {
    assert docs[..id + 1][..id] == docs[..id];
  }

  /** Each document's annotations, in document order. */
  function AnnotationLists(docs: seq<AnnotatedDoc>): (lists: seq<seq<Annotation>>)
    ensures |lists| == |docs|
  {
    MapSeq((d: AnnotatedDoc) => d.annotations, docs)
  }

  /** All the annotations are the documents' lists, concatenated. */
  lemma {:induction false} AllAnnotationsFlatten(docs: seq<AnnotatedDoc>)
    ensures AllAnnotations(docs) == Flatten(AnnotationLists(docs))
    decreases |docs|
  {
    if docs != [] {
      var n := |docs| - 1;
      AllAnnotationsFlatten(docs[..n]);
      MapSeqAppend((d: AnnotatedDoc) => d.annotations, docs[..n], [docs[n]]);
      assert docs[..n] + [docs[n]] == docs;
    }
  }

  // ---------------------------------------------------------------------
  // File names

  const PathSeparators: set<char> := {'.', '/'}

  /** `get_file_id`: the next-to-last piece of the path cut at every '.' and
      '/', read as an integer; a path with fewer than two pieces has no such
      piece. */
  function GetFileId(path: string): (r: Result<int>)
    ensures r == Failure(IndexError) <==> |SplitOn(path, PathSeparators)| < 2
    ensures r.Failure? ==> r.error in {IndexError, ValueError}
  {
    var parts := SplitOn(path, PathSeparators);
    if |parts| < 2 then Failure(IndexError)
    else match ParseInt(parts[|parts| - 2])
      case Some(n) => Success(n)
      case None => Failure(ValueError)
  }

  /** A number holds no path separator. */
  lemma NumeralPathPiece(n: nat)
    ensures NoneIn(NatToString(n), PathSeparators)
  {
    var s := NatToString(n);
    forall i | 0 <= i < |s| ensures s[i] !in PathSeparators {
      assert IsDigit(s[i]);
    }
  }

  /** A file named `<number>.<extension>` has that number as its id, whatever directory it is in. */
  lemma NumberedFileId(dir: string, n: nat, ext: string)
    requires NoneIn(ext, PathSeparators)
    ensures GetFileId(dir + "/" + NatToString(n) + "." + ext) == Success(n)
  {
    var digits := NatToString(n);
    NumeralPathPiece(n);
    SplitOnSuffix(dir + "/" + digits, '.', ext, PathSeparators);
    SplitOnSuffix(dir, '/', digits, PathSeparators);
    assert dir + "/" + digits + "." + ext == (dir + ['/'] + digits) + ['.'] + ext;
    ParseIntNatToString(n);
  }

  /** The reader's test for a text file: the name ends in "txt". */
  predicate IsTextFile(f: string) {
    EndsWith(f, "txt")
  }

  /** `f"{f[:-4]}.ann"`: the last four characters replaced by ".ann". */
  function AnnotationPath(f: string): (ann: string)
    ensures EndsWith(ann, ".ann")
  {
    (if |f| >= 4 then f[..|f| - 4] else "") + ".ann"
  }

  /** A text file named `<stem>.txt` is paired with `<stem>.ann`, and both give the same file id. */
  lemma TxtFilePairing(stem: string)
    ensures AnnotationPath(stem + ".txt") == stem + ".ann"
    ensures GetFileId(stem + ".ann") == GetFileId(stem + ".txt")
  {
    assert (stem + ".txt")[..|stem + ".txt"| - 4] == stem;
    SplitOnSuffix(stem, '.', "ann", PathSeparators);
    SplitOnSuffix(stem, '.', "txt", PathSeparators);
    assert stem + ".ann" == stem + ['.'] + "ann";
    assert stem + ".txt" == stem + ['.'] + "txt";
  }

  /** The "txt" test also accepts a name without the dot, and then the
      annotation path drops a character of the stem: "data/1xtxt" reads
      "data/1.ann", the annotation file of "data/1.txt". */
  lemma TxtSuffixWithoutDot()
    ensures IsTextFile("data/1xtxt") && IsTextFile("data/1.txt")
    ensures AnnotationPath("data/1xtxt") == AnnotationPath("data/1.txt") == "data/1.ann"
  {
  }

  /** The test the pairing evidently relies on: the name ends in ".txt". */
  predicate IsTxtFile(f: string) {
    EndsWith(f, ".txt")
  }

  /** Under the ".txt" test, every accepted file is paired with its own stem's ".ann" file. */
  lemma TxtFileOwnAnnotations(f: string)
    requires IsTxtFile(f)
    ensures IsTextFile(f)
    ensures exists stem :: f == stem + ".txt" && AnnotationPath(f) == stem + ".ann"
    ensures GetFileId(AnnotationPath(f)) == GetFileId(f)
  {
    var stem := f[..|f| - 4];
    assert f == stem + ".txt";
    TxtFilePairing(stem);
  }

  /** `os.path.join(base, name)` for a relative name. */
  function JoinPath(base: string, name: string): string {
    if base == [] || EndsWith(base, "/") then base + name else base + "/" + name
  }

  // ---------------------------------------------------------------------
  // Lines of a file, as iterating over an open file yields them

  function LinesFrom(s: string, current: string): seq<string>
    decreases |s|
  {
    if s == [] then (if current == [] then [] else [current])
    else if s[0] == '\n' then [current + "\n"] + LinesFrom(s[1..], "")
    else LinesFrom(s[1..], current + [s[0]])
  }

  /** The universal-newline translation of a file opened in text mode:
      "\r\n" and a lone '\r' each become '\n'. */
  function TranslateNewlines(s: string): (r: string)
    ensures '\r' !in r
    ensures '\r' !in s ==> r == s
    ensures |r| <= |s|
    decreases |s|
  {
    if s == [] then []
    else if s[0] == '\r' then "\n" + TranslateNewlines(if |s| >= 2 && s[1] == '\n' then s[2..] else s[1..])
    else [s[0]] + TranslateNewlines(s[1..])
  }

  /** The lines of a text file, each keeping its '\n'; the last may lack one.
      Line ends are "\n", "\r\n" and "\r", all read back as '\n'. */
  function LinesOf(s: string): seq<string> {
    LinesFrom(TranslateNewlines(s), "")
  }

  function Concat(xs: seq<string>): string
    decreases |xs|
  {
    if xs == [] then "" else xs[0] + Concat(xs[1..])
  }

  lemma {:induction false} ConcatLinesFrom(s: string, current: string)
    ensures Concat(LinesFrom(s, current)) == current + s
    decreases |s|
  {
    if s == [] {
    } else if s[0] == '\n' {
      ConcatLinesFrom(s[1..], "");
      assert current + "\n" + s[1..] == current + s;
    } else {
      ConcatLinesFrom(s[1..], current + [s[0]]);
      assert current + [s[0]] + s[1..] == current + s;
    }
  }

  lemma {:induction false} LinesFromShape(s: string, current: string)
    requires '\r' !in s && '\r' !in current && '\n' !in current
    ensures forall i :: 0 <= i < |LinesFrom(s, current)| ==>
      var line := LinesFrom(s, current)[i];
      && line != [] && '\r' !in line
      && '\n' !in line[..|line| - 1]
      && (i < |LinesFrom(s, current)| - 1 ==> line[|line| - 1] == '\n')
    decreases |s|
  {
    if s == [] {
    } else if s[0] == '\n' {
      LinesFromShape(s[1..], "");
      var line := current + "\n";
      assert line[..|line| - 1] == current;
    } else {
      LinesFromShape(s[1..], current + [s[0]]);
    }
  }

  /** Joining the lines back gives the text with its line ends translated
      (the text itself when it has no '\r'); every line is non-empty, holds
      no '\r', has '\n' only as its last character, and all but the last
      line end with '\n'. */
  lemma LinesOfRoundTrip(s: string)
    ensures Concat(LinesOf(s)) == TranslateNewlines(s)
    ensures '\r' !in s ==> Concat(LinesOf(s)) == s
    ensures forall i :: 0 <= i < |LinesOf(s)| ==>
      var line := LinesOf(s)[i];
      && line != [] && '\r' !in line
      && '\n' !in line[..|line| - 1]
      && (i < |LinesOf(s)| - 1 ==> line[|line| - 1] == '\n')
  {
    ConcatLinesFrom(TranslateNewlines(s), "");
    LinesFromShape(TranslateNewlines(s), "");
  }

  lemma TranslateNewlinesExample()
    ensures TranslateNewlines("a\r\nb\rc") == "a\nb\nc"
  {
    assert "a\r\nb\rc"[1..] == "\r\nb\rc";
    assert "a\r\nb\rc"[3..] == "b\rc";
    assert "b\rc"[1..] == "\rc";
    assert "\rc"[1..] == "c";
  }

  lemma LinesOfCrLf()
    ensures LinesOf("a\r\nb") == ["a\n", "b"]
  {
    assert "a\r\nb"[1..] == "\r\nb";
    assert "a\r\nb"[3..] == "b";
    assert TranslateNewlines("a\r\nb") == "a\nb";
    assert "a\nb"[1..] == "\nb";
    assert "\nb"[1..] == "b";
    assert LinesFrom("b", "") == ["b"] by {
      assert "b"[1..] == [];
      assert "" + ['b'] == "b";
    }
    assert LinesFrom("\nb", "a") == ["a\n", "b"] by {
      assert "\nb"[0] == '\n';
      assert "a" + "\n" == "a\n";
    }
    assert "" + ['a'] == "a";
  }

  // ---------------------------------------------------------------------
  // BRAT standoff lines

  /** One line of `read_brat_annotation`: lines not starting with 'T' and
      discontinuous spans (';' in the middle field) are skipped; a 'T' line
      must have exactly three tab-separated fields, its middle field exactly
      three words, and the two offsets must be integers. */
  function ParseBratLine(path: string, line: string): (r: Result<Option<Annotation>>)
    ensures !StartsWith(line, "T") ==> r == Success(None)
    ensures r.Success? && r.value.Some? ==>
      && StartsWith(line, "T")
      && r.value.value.source == Brat
      && GetFileId(path) == Success(r.value.value.fileId)
      && NoneIn(r.value.value.id, {'\t'}) && NoneIn(r.value.value.text, {'\t'})
  {
    if !StartsWith(line, "T") then Success(None)
    else
      var fields := SplitOn(Strip(line), {'\t'});
      if |fields| != 3 then Failure(ValueError)
      else if ';' in fields[1] then Success(None)
      else
        var words := Words(fields[1]);
        if |words| != 3 then Failure(ValueError)
        else match GetFileId(path)
          case Failure(e) => Failure(e)
          case Success(fileId) =>
            match ParseInt(words[1])
            case None => Failure(ValueError)
            case Some(start) =>
              match ParseInt(words[2])
              case None => Failure(ValueError)
              case Some(end) =>
                assert fields[0] in fields && fields[2] in fields;
                Success(Some(Annotation(fields[0], fileId, start, end, words[0], fields[2], Brat)))
  }

  /** The standoff line of an annotation: `id<TAB>category start end<TAB>text`. */
  function FormatBratLine(a: Annotation): string
    requires a.start >= 0 && a.end >= 0
  {
    JoinWith([a.id, JoinWith([a.category, NatToString(a.start), NatToString(a.end)], " "), a.text], "\t") + "\n"
  }

  /** An annotation that the format can carry. */
  predicate WellFormed(a: Annotation) {
    && a.start >= 0 && a.end >= 0
    && StartsWith(a.id, "T") && NoneIn(a.id, {'\t'})
    && a.category != [] && NoWhitespace(a.category) && ';' !in a.category
    && a.text != [] && NoneIn(a.text, {'\t'}) && !IsWhitespace(a.text[|a.text| - 1])
    && a.source == Brat
  }

  lemma StripLine(x: string)
    requires x != [] && !IsWhitespace(x[0]) && !IsWhitespace(x[|x| - 1])
    ensures Strip(x + "\n") == x
  {
    var y := x + "\n";
    assert y[0] == x[0];
    assert TrimStart(y) == y;
    assert y[..|y| - 1] == x;
    assert IsWhitespace(y[|y| - 1]);
    assert TrimEnd(x) == x;
  }

  lemma JoinWithThree(a: string, b: string, c: string, sep: string)
    ensures JoinWith([a, b, c], sep) == a + sep + b + sep + c
  {
    assert [a, b, c][1..] == [b, c];
    assert [b, c][1..] == [c];
    assert JoinWith([b, c], sep) == b + sep + c;
    assert JoinWith([a, b, c], sep) == a + sep + (b + sep + c);
  }

  lemma NumeralShape(n: nat)
    ensures NatToString(n) != [] && NoWhitespace(NatToString(n)) && ';' !in NatToString(n)
  {
    var s := NatToString(n);
    forall i | 0 <= i < |s| ensures !IsWhitespace(s[i]) && s[i] != ';' {
      assert IsDigit(s[i]);
    }
  }

  /** The middle field of a line: category, start and end, space-separated. */
  lemma DetailsField(a: Annotation)
    requires WellFormed(a)
    ensures var details := JoinWith([a.category, NatToString(a.start), NatToString(a.end)], " ");
      && details == a.category + " " + NatToString(a.start) + " " + NatToString(a.end)
      && NoneIn(details, {'\t'}) && ';' !in details
  {
    var s, e := NatToString(a.start), NatToString(a.end);
    NumeralShape(a.start);
    NumeralShape(a.end);
    var details := JoinWith([a.category, s, e], " ");
    JoinWithThree(a.category, s, e, " ");
    assert NoneIn(details, {'\t'}) by {
      forall i | 0 <= i < |details| ensures details[i] != '\t' {
        assert details[i] in a.category || details[i] == ' ' || details[i] in s || details[i] in e;
      }
    }
    assert ';' !in details by {
      assert forall c :: c in details ==> c in a.category || c == ' ' || c in s || c in e;
    }
  }

  /** Reading back the line written for a well-formed annotation gives the annotation. */
  lemma BratLineRoundTrip(path: string, a: Annotation)
    requires WellFormed(a)
    requires GetFileId(path) == Success(a.fileId)
    ensures ParseBratLine(path, FormatBratLine(a)) == Success(Some(a))
  {
    var s, e := NatToString(a.start), NatToString(a.end);
    NumeralShape(a.start);
    NumeralShape(a.end);
    var details := JoinWith([a.category, s, e], " ");
    DetailsField(a);
    var body := JoinWith([a.id, details, a.text], "\t");
    JoinWithThree(a.id, details, a.text, "\t");
    var line := FormatBratLine(a);
    assert line == body + "\n";
    assert StartsWith(line, "T") by {
      assert line[0] == a.id[0];
    }
    StripLine(body);
    SplitJoin([a.id, details, a.text], '\t');
    WordsOfJoin([a.category, s, e]);
    ParseIntNatToString(a.start);
    ParseIntNatToString(a.end);
  }

  /** `read_brat_annotation` over the lines of one annotation file, as a
      value: the first line that fails decides the error. */
  function BratAnnotations(path: string, lines: seq<string>): Result<seq<Annotation>>
    decreases |lines|
  {
    if lines == [] then Success([])
    else match BratAnnotations(path, lines[..|lines| - 1])
      case Failure(e) => Failure(e)
      case Success(anns) =>
        match ParseBratLine(path, lines[|lines| - 1])
        case Failure(e) => Failure(e)
        case Success(None) => Success(anns)
        case Success(Some(a)) => Success(anns + [a])
  }

  /** `read_brat_annotation`. */
  method ReadBratAnnotation(path: string, lines: seq<string>) returns (r: Result<seq<Annotation>>)
    ensures r == BratAnnotations(path, lines)
  {
    var annotations := [];
    var i := 0;
    while i < |lines|
      invariant 0 <= i <= |lines|
      invariant BratAnnotations(path, lines[..i]) == Success(annotations)
    {
      assert lines[..i + 1][..i] == lines[..i];
      var parsed := ParseBratLine(path, lines[i]);
      if parsed.Failure? {
        r := Failure(parsed.error);
        BratAnnotationsFailurePersists(path, lines, i + 1);
        return;
      }
      if parsed.value.Some? {
        annotations := annotations + [parsed.value.value];
      }
      i := i + 1;
    }
    assert lines[..i] == lines;
    r := Success(annotations);
  }

  /** Once a prefix of the lines fails, the whole file fails with the same error. */
  lemma {:induction false} BratAnnotationsFailurePersists(path: string, lines: seq<string>, k: nat)
    requires k <= |lines|
    requires BratAnnotations(path, lines[..k]).Failure?
    ensures BratAnnotations(path, lines) == BratAnnotations(path, lines[..k])
    decreases |lines| - k
  {
    if k < |lines| {
      assert lines[..k + 1][..k] == lines[..k];
      BratAnnotationsFailurePersists(path, lines, k + 1);
    } else {
      assert lines[..k] == lines;
    }
  }

  /** Every annotation read from a file is a BRAT annotation carrying the file's id, and there are no more of them than lines. */
  lemma {:induction false} BratAnnotationsShape(path: string, lines: seq<string>)
    ensures var r := BratAnnotations(path, lines);
      r.Success? ==>
        && |r.value| <= |lines|
        && forall a :: a in r.value ==> a.source == Brat && GetFileId(path) == Success(a.fileId)
    decreases |lines|
  {
    if lines != [] {
      BratAnnotationsShape(path, lines[..|lines| - 1]);
    }
  }

  /** The lines of an annotation file holding the given annotations, in order. */
  function BratLines(anns: seq<Annotation>): seq<string>
    requires forall a :: a in anns ==> WellFormed(a)
    decreases |anns|
  {
    if anns == [] then []
    else
      var last := anns[|anns| - 1];
      assert last in anns;
      assert WellFormed(last);
      BratLines(anns[..|anns| - 1]) + [FormatBratLine(last)]
  }

  /** Reading back the lines written for well-formed annotations of one file gives those annotations. */
  lemma {:induction false} BratFileRoundTrip(path: string, anns: seq<Annotation>)
    requires forall a :: a in anns ==> WellFormed(a) && GetFileId(path) == Success(a.fileId)
    ensures BratAnnotations(path, BratLines(anns)) == Success(anns)
    decreases |anns|
  {
    if anns != [] {
      var init := anns[..|anns| - 1];
      var last := anns[|anns| - 1];
      assert last in anns;
      BratFileRoundTrip(path, init);
      var lines := BratLines(anns);
      assert lines[..|lines| - 1] == BratLines(init);
      BratLineRoundTrip(path, last);
      assert init + [last] == anns;
    }
  }

  // ---------------------------------------------------------------------
  // The annotations directory

  /** One directory entry of `read_brat_annotation_files`: None when it is
      not a text file; otherwise its document, or the first error. The text
      is read in text mode, so its line ends are translated as well. */
  function ReadDocument(base: string, name: string, fs: map<string, string>): (r: Result<Option<AnnotatedDoc>>)
    ensures r.Success? && r.value.Some? ==>
      var doc := r.value.value;
      && doc.path == JoinPath(base, name)
      && doc.path in fs && IsTextFile(doc.path) && doc.text == TranslateNewlines(fs[doc.path])
      && GetFileId(doc.path) == Success(doc.id)
      && AnnotationPath(doc.path) in fs
      && BratAnnotations(AnnotationPath(doc.path), LinesOf(fs[AnnotationPath(doc.path)])) == Success(doc.annotations)
  {
    var f := JoinPath(base, name);
    if !(f in fs && IsTextFile(f)) then Success(None)
    else
      var annPath := AnnotationPath(f);
      match GetFileId(f)
      case Failure(e) => Failure(e)
      case Success(id) =>
        if annPath !in fs then Failure(OSError)
        else match BratAnnotations(annPath, LinesOf(fs[annPath]))
          case Failure(e) => Failure(e)
          case Success(anns) => Success(Some(AnnotatedDoc(id, f, TranslateNewlines(fs[f]), anns)))
  }

  /** Conversely, a text file with a file id and a readable annotation file is read as that document. */
  lemma ReadDocumentOf(base: string, name: string, fs: map<string, string>, id: int, anns: seq<Annotation>)
    requires JoinPath(base, name) in fs && IsTextFile(JoinPath(base, name))
    requires GetFileId(JoinPath(base, name)) == Success(id)
    requires AnnotationPath(JoinPath(base, name)) in fs
    requires BratAnnotations(AnnotationPath(JoinPath(base, name)), LinesOf(fs[AnnotationPath(JoinPath(base, name))])) == Success(anns)
    ensures ReadDocument(base, name, fs) == Success(Some(AnnotatedDoc(id, JoinPath(base, name), TranslateNewlines(fs[JoinPath(base, name)]), anns)))
  {
  }

  /** `read_brat_annotation_files` as a value. */
  function BratDocuments(base: string, listing: seq<string>, fs: map<string, string>): Result<seq<AnnotatedDoc>>
    decreases |listing|
  {
    if listing == [] then Success([])
    else match BratDocuments(base, listing[..|listing| - 1], fs)
      case Failure(e) => Failure(e)
      case Success(docs) =>
        match ReadDocument(base, listing[|listing| - 1], fs)
        case Failure(e) => Failure(e)
        case Success(None) => Success(docs)
        case Success(Some(doc)) => Success(docs + [doc])
  }

  /** `read_brat_annotation_files`: one document per listed text file, in listing order. */
  method ReadBratAnnotationFiles(base: string, listing: seq<string>, fs: map<string, string>)
    returns (r: Result<seq<AnnotatedDoc>>)
    ensures r == BratDocuments(base, listing, fs)
  {
    var documents := [];
    for i := 0 to |listing|
      invariant BratDocuments(base, listing[..i], fs) == Success(documents)
    {
      var doc := ReadDocument(base, listing[i], fs);
      BratDocumentsStep(base, listing, fs, i);
      if doc.Failure? {
        r := Failure(doc.error);
        BratDocumentsFailurePersists(base, listing, fs, i + 1);
        return;
      }
      if doc.value.Some? {
        documents := documents + [doc.value.value];
      }
    }
    assert listing[..|listing|] == listing;
    r := Success(documents);
  }

  lemma BratDocumentsStep(base: string, listing: seq<string>, fs: map<string, string>, i: nat)
    requires i < |listing|
    ensures BratDocuments(base, listing[..i + 1], fs) ==
      match BratDocuments(base, listing[..i], fs)
      case Failure(e) => Failure(e)
      case Success(docs) =>
        match ReadDocument(base, listing[i], fs)
        case Failure(e) => Failure(e)
        case Success(None) => Success(docs)
        case Success(Some(doc)) => Success(docs + [doc])
  {
    assert listing[..i + 1][..i] == listing[..i];
  }

  lemma {:induction false} BratDocumentsFailurePersists(base: string, listing: seq<string>, fs: map<string, string>, k: nat)
    requires k <= |listing|
    requires BratDocuments(base, listing[..k], fs).Failure?
    ensures BratDocuments(base, listing, fs) == BratDocuments(base, listing[..k], fs)
    decreases |listing| - k
  {
    if k < |listing| {
      assert listing[..k + 1][..k] == listing[..k];
      BratDocumentsFailurePersists(base, listing, fs, k + 1);
    } else {
      assert listing[..k] == listing;
    }
  }

  /** `doc` is what the reader makes of the directory entry `name`: a text
      file with its contents (line ends translated) and its id; and when its name ends in ".txt",
      each of its annotations carries the document's own id. */
  predicate ReadFrom(base: string, name: string, fs: map<string, string>, doc: AnnotatedDoc) {
    && doc.path == JoinPath(base, name)
    && doc.path in fs && IsTextFile(doc.path) && doc.text == TranslateNewlines(fs[doc.path])
    && GetFileId(doc.path) == Success(doc.id)
    && (IsTxtFile(doc.path) ==> forall a :: a in doc.annotations ==> a.fileId == doc.id && a.source == Brat)
  }

  lemma ReadDocumentShape(base: string, name: string, fs: map<string, string>)
    ensures var r := ReadDocument(base, name, fs);
      r.Success? && r.value.Some? ==> ReadFrom(base, name, fs, r.value.value)
  {
    var r := ReadDocument(base, name, fs);
    if r.Success? && r.value.Some? {
      var doc := r.value.value;
      if IsTxtFile(doc.path) {
        var annPath := AnnotationPath(doc.path);
        BratAnnotationsShape(annPath, LinesOf(fs[annPath]));
        TxtFileOwnAnnotations(doc.path);
      }
    }
  }

  /** A line with no line end inside it, followed by '\n', is read as one line. */
  lemma {:induction false} LinesFromOneLine(s: string, current: string)
    requires '\n' !in s
    ensures LinesFrom(s + "\n", current) == [current + s + "\n"]
    decreases |s|
  {
    if s == [] {
      assert s + "\n" == "\n";
      assert "\n"[1..] == [];
      assert LinesFrom([], "") == [];
      assert current + s + "\n" == current + "\n";
    } else {
      assert (s + "\n")[0] == s[0] != '\n';
      assert (s + "\n")[1..] == s[1..] + "\n";
      LinesFromOneLine(s[1..], current + [s[0]]);
      assert current + [s[0]] + s[1..] == current + s;
    }
  }

  /** The path of the entry "<n>xtxt" in the directory "<d>": a text file
      by the "txt" test but not by the ".txt" test, paired with "<d>/<n>.ann". */
  lemma TxtSuffixWithoutDotPath(ds: string, ns: string)
    requires ds != [] && ds[|ds| - 1] != '/'
    ensures var f := ds + "/" + ns + "xtxt";
      && JoinPath(ds, ns + "xtxt") == f
      && IsTextFile(f) && !IsTxtFile(f)
      && AnnotationPath(f) == ds + "/" + ns + ".ann"
  {
    var f := ds + "/" + ns + "xtxt";
    assert !EndsWith(ds, "/") by {
      assert ds[|ds| - 1..] != "/";
    }
    var stem := ds + "/" + ns;
    assert f == stem + "xtxt";
    assert f[|f| - 3..] == "txt";
    assert f[|f| - 4..] == "xtxt";
    assert f[..|f| - 4] == stem;
    assert AnnotationPath(f) == stem + ".ann";
  }

  /** The entry "<n>xtxt" of the directory "<d>" has file id d. */
  lemma TxtSuffixWithoutDotFileId(d: nat, ns: string)
    requires NoneIn(ns, PathSeparators)
    ensures GetFileId(NatToString(d) + "/" + ns + "xtxt") == Success(d)
  {
    var ds := NatToString(d);
    NumeralPathPiece(d);
    var last := ns + "xtxt";
    assert NoneIn(last, PathSeparators) by {
      forall i | 0 <= i < |last| ensures last[i] !in PathSeparators {
        if i >= |ns| {
          assert last[i] == "xtxt"[i - |ns|];
        }
      }
    }
    SplitOnSuffix(ds, '/', last, PathSeparators);
    assert ds + "/" + ns + "xtxt" == ds + ['/'] + last;
    SplitOnNoSeparator(ds, PathSeparators);
    ParseIntNatToString(d);
  }

  /** The entry "<n>xtxt" of the directory "<d>" has file id d, and the
      annotation file the reader pairs with it, "<d>/<n>.ann", has file id n. */
  lemma TxtSuffixWithoutDotIds(d: nat, n: nat)
    ensures GetFileId(NatToString(d) + "/" + NatToString(n) + "xtxt") == Success(d)
    ensures GetFileId(NatToString(d) + "/" + NatToString(n) + ".ann") == Success(n)
  {
    var ds, ns := NatToString(d), NatToString(n);
    NumeralPathPiece(n);
    TxtSuffixWithoutDotFileId(d, ns);
    NumberedFileId(ds, n, "ann");
    assert ds + "/" + ns + "." + "ann" == ds + "/" + ns + ".ann";
  }

  /** The standoff line of an annotation whose id and text hold no line end is one line of its file. */
  lemma BratLineIsOneLine(a: Annotation)
    requires WellFormed(a)
    requires NoneIn(a.id, {'\n', '\r'}) && NoneIn(a.text, {'\n', '\r'})
    ensures LinesOf(FormatBratLine(a)) == [FormatBratLine(a)]
  {
    var line := FormatBratLine(a);
    var s, e := NatToString(a.start), NatToString(a.end);
    NumeralShape(a.start);
    NumeralShape(a.end);
    var details := JoinWith([a.category, s, e], " ");
    DetailsField(a);
    var body := JoinWith([a.id, details, a.text], "\t");
    JoinWithThree(a.id, details, a.text, "\t");
    assert line == body + "\n";
    assert NoneIn(body, {'\n', '\r'}) by {
      forall c | c in body ensures c != '\n' && c != '\r' {
        assert c in a.id || c == '\t' || c in a.category || c == ' ' || c in s || c in e || c in a.text;
      }
    }
    assert '\r' !in line;
    assert TranslateNewlines(line) == line;
    LinesFromOneLine(body, "");
    assert "" + body + "\n" == line;
  }

  /** A file holding the line of one annotation is read as that annotation. */
  lemma BratFileOfOneLine(path: string, a: Annotation)
    requires WellFormed(a) && GetFileId(path) == Success(a.fileId)
    requires NoneIn(a.id, {'\n', '\r'}) && NoneIn(a.text, {'\n', '\r'})
    ensures BratAnnotations(path, LinesOf(FormatBratLine(a))) == Success([a])
  {
    BratLineIsOneLine(a);
    assert BratLines([a]) == [FormatBratLine(a)] by {
      assert [a][..0] == [];
    }
    BratFileRoundTrip(path, [a]);
  }

  /** The entry "<n>xtxt" of the directory "<d>" (say "7/1xtxt") passes the
      "txt" test, so the reader takes it for a document with id d, and fills
      it with the annotations of "<d>/<n>.ann" ("7/1.ann"), which carry file
      id n: when d != n the document's annotations belong to another file. */
  lemma TxtSuffixWithoutDotDocument(d: nat, n: nat, a: Annotation, fs: map<string, string>)
    requires WellFormed(a) && a.fileId == n
    requires NoneIn(a.id, {'\n', '\r'}) && NoneIn(a.text, {'\n', '\r'})
    requires NatToString(d) + "/" + NatToString(n) + "xtxt" in fs
    requires NatToString(d) + "/" + NatToString(n) + ".ann" in fs
    requires fs[NatToString(d) + "/" + NatToString(n) + ".ann"] == FormatBratLine(a)
    ensures var f := NatToString(d) + "/" + NatToString(n) + "xtxt";
      && !IsTxtFile(f)
      && ReadDocument(NatToString(d), NatToString(n) + "xtxt", fs) == Success(Some(AnnotatedDoc(d, f, TranslateNewlines(fs[f]), [a])))
  {
    var ds := NatToString(d);
    assert ds[|ds| - 1] != '/' by {
      assert IsDigit(ds[|ds| - 1]);
    }
    TxtSuffixWithoutDotPath(ds, NatToString(n));
    TxtSuffixWithoutDotIds(d, n);
    BratFileOfOneLine(NatToString(d) + "/" + NatToString(n) + ".ann", a);
    ReadDocumentOf(NatToString(d), NatToString(n) + "xtxt", fs, d, [a]);
  }

  /** `doc` is what the reader makes of one of the listed entries. */
  ghost predicate Listed(base: string, listing: seq<string>, fs: map<string, string>, doc: AnnotatedDoc) {
    exists i :: 0 <= i < |listing| && ReadFrom(base, listing[i], fs, doc)
  }

  lemma ListedGrows(base: string, listing: seq<string>, fs: map<string, string>, doc: AnnotatedDoc)
    requires listing != []
    requires Listed(base, listing[..|listing| - 1], fs, doc)
    ensures Listed(base, listing, fs, doc)
  {
    var init := listing[..|listing| - 1];
    var i :| 0 <= i < |init| && ReadFrom(base, init[i], fs, doc);
    assert init[i] == listing[i];
  }

  /** Every document read comes from a listed entry, as `ReadFrom` describes. */
  lemma {:induction false} BratDocumentsShape(base: string, listing: seq<string>, fs: map<string, string>)
    ensures var r := BratDocuments(base, listing, fs);
      r.Success? ==> forall doc :: doc in r.value ==> Listed(base, listing, fs, doc)
    decreases |listing|
  {
    if listing != [] {
      var init := listing[..|listing| - 1];
      var last := |listing| - 1;
      BratDocumentsShape(base, init, fs);
      ReadDocumentShape(base, listing[last], fs);
      var r := BratDocuments(base, listing, fs);
      if r.Success? {
        var prev := BratDocuments(base, init, fs).value;
        forall doc | doc in r.value
          ensures Listed(base, listing, fs, doc)
        {
          if doc in prev {
            ListedGrows(base, listing, fs, doc);
          } else {
            assert ReadFrom(base, listing[last], fs, doc);
          }
        }
      }
    }
  }

  // ---------------------------------------------------------------------
  // NER output

  datatype NerEntity = NerEntity(start: int, end: int, labelName: string, text: string)

  datatype NerDocument = NerDocument(text: string, entities: seq<NerEntity>)

  /** The annotation for entity `j` of document `i`. */
  function NerAnnotation(i: nat, j: nat, e: NerEntity): Annotation {
    Annotation(NatToString(j), i, e.start, e.end, e.labelName, e.text, Ner)
  }

  /** The document `read_ner_annotation_file` builds from document `i`. */
  function NerDoc(path: string, i: nat, d: NerDocument): AnnotatedDoc {
    AnnotatedDoc(i, path, d.text,
      seq(|d.entities|, j requires 0 <= j < |d.entities| => NerAnnotation(i, j, d.entities[j])))
  }

  /** `read_ner_annotation_file` over already parsed documents. */
  method ReadNerAnnotations(path: string, documents: seq<NerDocument>) returns (docs: seq<AnnotatedDoc>)
    ensures |docs| == |documents|
    ensures forall i :: 0 <= i < |documents| ==> docs[i] == NerDoc(path, i, documents[i])
  {
    docs := [];
    for i := 0 to |documents|
      invariant |docs| == i
      invariant forall k :: 0 <= k < i ==> docs[k] == NerDoc(path, k, documents[k])
    {
      var doc := documents[i];
      var nerAnnotations := [];
      for j := 0 to |doc.entities|
        invariant |nerAnnotations| == j
        invariant forall k :: 0 <= k < j ==> nerAnnotations[k] == NerAnnotation(i, k, doc.entities[k])
      {
        var entity := doc.entities[j];
        nerAnnotations := nerAnnotations + [Annotation(NatToString(j), i, entity.start, entity.end, entity.labelName, entity.text, Ner)];
      }
      docs := docs + [AnnotatedDoc(i, path, doc.text, nerAnnotations)];
    }
  }

  /** Within a NER document the annotation ids are pairwise distinct, each
      annotation carries its document's index as file id, and its fields are
      the entity's. */
  lemma NerDocShape(path: string, i: nat, d: NerDocument)
    ensures var doc := NerDoc(path, i, d);
      && doc.id == i && doc.path == path && doc.text == d.text
      && |doc.annotations| == |d.entities|
      && (forall j :: 0 <= j < |d.entities| ==>
            var a := doc.annotations[j];
            && a.fileId == i && a.source == Ner
            && a.start == d.entities[j].start && a.end == d.entities[j].end
            && a.category == d.entities[j].labelName && a.text == d.entities[j].text
            && ParseInt(a.id) == Some(j))
      && (forall j, k :: 0 <= j < k < |d.entities| ==> doc.annotations[j].id != doc.annotations[k].id)
  {
    var doc := NerDoc(path, i, d);
    forall j | 0 <= j < |d.entities| ensures ParseInt(doc.annotations[j].id) == Some(j) {
      ParseIntNatToString(j);
    }
  }
}
