/** The source normalizer (_extract_text): turns a path, a byte buffer or a
    readable stream into plain text, sending PDF documents to page-by-page
    text extraction and everything else to a UTF-8 decoder. */
module Normalizer {
  import opened Errors
  import opened Strings

  type Byte = b: int | 0 <= b < 256
  type Bytes = seq<Byte>

  /** b"%PDF", the signature a PDF document starts with. */
  const PdfMagic: Bytes := [0x25, 0x50, 0x44, 0x46]

  /** The shapes _extract_text accepts, resolved once. */
  datatype Source =
    | PathSource(path: string)                        // a str or a pathlib.Path
    | BytesSource(data: Bytes)                        // a bytes object
    | StreamSource(name: Option<string>, data: Bytes) // an object with read(): its str name, if any, and what read() returned
    | OtherSource                                     // anything else

  /** The file system, the UTF-8 decoder and pdfplumber, none of which is part
      of this model; a read or a PDF parse that raises gives None. */
  datatype Io = Io(
    readText: string -> Option<string>,           // Path.read_text(encoding="utf-8", errors="ignore")
    readBytes: string -> Option<Bytes>,           // Path.read_bytes()
    decode: Bytes -> string,                      // bytes.decode("utf-8", errors="ignore")
    pdfAvailable: bool,                           // whether `import pdfplumber` succeeded
    pdfPages: Bytes -> Option<seq<Option<string>>>) // extract_text() of each page of the opened document

  /** data[:n], which Python clamps to the length of data. */
  function Prefix(data: Bytes, n: nat): Bytes {
    if n <= |data| then data[..n] else data
  }

  /** The data starts with the four bytes of the PDF signature. */
  predicate HasPdfMagic(data: Bytes) {
    |data| >= 4 && data[0] == 0x25 && data[1] == 0x50 && data[2] == 0x44 && data[3] == 0x46
  }

  /** Path(path).name: what follows the last separator. */
  function FileName(path: string): (name: string)
    ensures EndsWith(path, name)
    ensures forall i :: 0 <= i < |name| ==> name[i] != '/'
  {
    path[LastIndexOf(path, '/') + 1..]
  }

  /** Path(path).suffix: the name from its last dot on, unless that dot opens
      the name or closes it. */
  function Suffix(path: string): (ext: string)
    ensures ext != [] ==> 2 <= |ext| && ext[0] == '.' && EndsWith(FileName(path), ext) && |ext| < |FileName(path)|
    ensures forall i :: 0 < i < |ext| ==> ext[i] != '.' && ext[i] != '/'
  {
    var name := FileName(path);
    var dot := LastIndexOf(name, '.');
    if 0 < dot < |name| - 1 then name[dot..] else ""
  }

  /** path.suffix.lower() */
  function Extension(path: string): string {
    Lower(Suffix(path))
  }

  /** name.lower().endswith(".pdf") for a stream whose name is a str. */
  predicate NamedPdf(name: Option<string>) {
    name.Some? && EndsWith(Lower(name.value), ".pdf")
  }

  /** p.extract_text() or "" for each page. */
  function PageTexts(pages: seq<Option<string>>): (texts: seq<string>)
    ensures |texts| == |pages|
    ensures forall k :: 0 <= k < |pages| ==> texts[k] == if pages[k].Some? then pages[k].value else ""
  {
    seq(|pages|, k requires 0 <= k < |pages| => if pages[k].Some? then pages[k].value else "")
  }

  /** _pdf_bytes_to_text: the text of every page, in page order, joined by
      newlines; fails when pdfplumber is missing or cannot read the data. */
  function PdfToText(data: Bytes, io: Io): (r: Result<string>)
    ensures !io.pdfAvailable ==> r == Err(PdfLibraryMissing)
    ensures io.pdfAvailable && io.pdfPages(data).None? ==> r == Err(ExtractionFailed)
    ensures r.Ok? <==> io.pdfAvailable && io.pdfPages(data).Some?
    ensures r.Err? ==> r.error == PdfLibraryMissing || r.error == ExtractionFailed
    ensures r.Ok? ==> r.value == Join(PageTexts(io.pdfPages(data).value), "\n")
  {
    if !io.pdfAvailable then Err(PdfLibraryMissing)
    else match io.pdfPages(data)
      case None => Err(ExtractionFailed)
      case Some(pages) => Ok(Join(PageTexts(pages), "\n"))
  }

  /** The path branch of _extract_text: a .txt file is read as text, a
      .pdf file as bytes handed to the PDF extractor, in any letter case;
      any other extension is refused before the file is touched. */
  function ReadPath(path: string, io: Io): (r: Result<string>)
    ensures Extension(path) == ".txt" ==>
      r == if io.readText(path).Some? then Ok(io.readText(path).value) else Err(FileError(path))
    ensures Extension(path) == ".pdf" ==>
      r == if io.readBytes(path).Some? then PdfToText(io.readBytes(path).value, io) else Err(FileError(path))
    ensures Extension(path) != ".txt" && Extension(path) != ".pdf" ==>
      r == Err(UnsupportedExtension(Extension(path)))
    ensures r != Err(NotASource)
  {
    var ext := Extension(path);
    if ext == ".txt" then
      match io.readText(path)
      case None => Err(FileError(path))
      case Some(text) => Ok(text)
    else if ext == ".pdf" then
      match io.readBytes(path)
      case None => Err(FileError(path))
      case Some(data) => PdfToText(data, io)
    else
      Err(UnsupportedExtension(ext))
  }

  /** _extract_text */
  function ExtractText(source: Source, io: Io): (r: Result<string>)
    ensures source.OtherSource? <==> r == Err(NotASource)
    ensures source.PathSource? ==> r == ReadPath(source.path, io)
    ensures source.BytesSource? ==>
      r == if HasPdfMagic(source.data) then PdfToText(source.data, io) else Ok(io.decode(source.data))
    ensures source.StreamSource? ==>
      r == if NamedPdf(source.name) || HasPdfMagic(source.data) then PdfToText(source.data, io) else Ok(io.decode(source.data))
  {
    match source
    case PathSource(path) =>
      ReadPath(path, io)
    case BytesSource(data) =>
      if StartsWithPdfMagic(data) then PdfToText(data, io) else Ok(io.decode(data))
    case StreamSource(name, data) =>
      if NamedPdf(name) || StartsWithPdfMagic(data) then PdfToText(data, io) else Ok(io.decode(data))
    case OtherSource =>
      Err(NotASource)
  }

  /** Lower-casing keeps '.' and '/' where they are and makes no new ones, so
      the last of them stays in place. */
  lemma LastIndexOfLower(s: string, c: char)
    requires c == '.' || c == '/'
    ensures LastIndexOf(Lower(s), c) == LastIndexOf(s, c)
  {
    assert forall i :: 0 <= i < |s| ==> (Lower(s)[i] == c <==> s[i] == c);
  }

  /** Lower-casing commutes with taking a tail. */
  lemma LowerTail(s: string, k: nat)
    requires k <= |s|
    ensures Lower(s[k..]) == Lower(s)[k..]
  {
  }

  /** The file name of a lower-cased path is the lower-cased file name. */
  lemma FileNameOfLower(path: string)
    ensures FileName(Lower(path)) == Lower(FileName(path))
  {
    LastIndexOfLower(path, '/');
    LowerTail(path, LastIndexOf(path, '/') + 1);
  }

  /** Suffixes are found the same way in a lower-cased path. */
  lemma SuffixOfLower(path: string)
    ensures Suffix(Lower(path)) == Lower(Suffix(path))
  {
    var name := FileName(path);
    FileNameOfLower(path);
    LastIndexOfLower(name, '.');
    var dot := LastIndexOf(name, '.');
    if 0 < dot < |name| - 1 {
      SuffixAt(path, dot);
      SuffixAt(Lower(path), dot);
      LowerTail(name, dot);
    } else {
      NoSuffix(path);
      NoSuffix(Lower(path));
    }
  }

  /** Without a dot strictly inside the file name, there is no suffix. */
  lemma NoSuffix(path: string)
    requires !(0 < LastIndexOf(FileName(path), '.') < |FileName(path)| - 1)
    ensures Suffix(path) == []
  {
  }

  /** Paths are dispatched on their extension without regard to case: two
      paths that differ only in the case of their letters have the same
      extension, hence take the same branch. */
  lemma ExtensionIgnoresCase(p: string, q: string)
    requires Lower(p) == Lower(q)
    ensures Extension(p) == Extension(q)
  {
    SuffixOfLower(p);
    SuffixOfLower(q);
    LowerIdempotent(Suffix(p));
    LowerIdempotent(Suffix(q));
  }

  lemma LowerIdempotent(s: string)
    ensures Lower(Lower(s)) == Lower(s)
  {
  }

  /** A path with an unsupported extension and a value of no accepted shape
      are refused before any file is read or decoded: the outcome is an error
      that does not depend on the file system, the decoder or pdfplumber. */
  lemma RefusedWithoutReading(source: Source, io1: Io, io2: Io)
    requires source.OtherSource? ||
             (source.PathSource? && Extension(source.path) != ".txt" && Extension(source.path) != ".pdf")
    ensures ExtractText(source, io1).Err?
    ensures ExtractText(source, io1) == ExtractText(source, io2)
  {
  }

  /** Data that starts with the PDF signature always goes to PDF extraction,
      whatever name the stream carries, the same as a bare byte buffer. */
  lemma SignatureOverridesName(name: Option<string>, data: Bytes, io: Io)
    requires HasPdfMagic(data)
    ensures ExtractText(StreamSource(name, data), io) == PdfToText(data, io)
    ensures ExtractText(BytesSource(data), io) == PdfToText(data, io)
  {
  }

  /** Python's slice test data[:4] == b"%PDF": it holds exactly when the
      data starts with the signature, so short data never passes. */
  function StartsWithPdfMagic(data: Bytes): (b: bool)
    ensures b <==> HasPdfMagic(data)
  {
    assert HasPdfMagic(data) ==> data[..4] == PdfMagic;
    Prefix(data, 4) == PdfMagic
  }

  /** The last occurrence of c is at k when s[k] is c and nothing after
      it is. */
  lemma LastIndexOfAt(s: string, c: char, k: nat)
    requires k < |s| && s[k] == c
    requires forall i :: k < i < |s| ==> s[i] != c
    ensures LastIndexOf(s, c) == k
  {
  }

  /** Under a directory that is empty or ends in '/', a name without '/'
      is the file name. */
  lemma FileNameUnderDir(dir: string, name: string)
    requires dir == [] || dir[|dir| - 1] == '/'
    requires forall i :: 0 <= i < |name| ==> name[i] != '/'
    ensures FileName(dir + name) == name
  {
    NameAfter(dir, name, '/');
    if dir != [] {
      LastIndexOfAt(dir + name, '/', |dir| - 1);
    } else {
      assert dir + name == name;
    }
    assert (dir + name)[|dir|..] == name;
  }

  /** What follows the prefix of p + s is s, character for character. */
  lemma NameAfter(p: string, s: string, c: char)
    requires forall i :: 0 <= i < |s| ==> s[i] != c
    ensures forall i :: |p| <= i < |p + s| ==> (p + s)[i] != c
  {
    forall i | |p| <= i < |p + s|
      ensures (p + s)[i] != c
    {
      assert (p + s)[i] == s[i - |p|];
    }
  }

  /** In stem + [dot] + ext, with no dot in ext, the last dot is the one
      after the stem. */
  lemma LastDotAfterStem(stem: string, dot: char, ext: string)
    requires forall i :: 0 <= i < |ext| ==> ext[i] != dot
    ensures LastIndexOf(stem + [dot] + ext, dot) == |stem|
  {
    NameAfter(stem + [dot], ext, dot);
    assert (stem + [dot] + ext)[|stem|] == dot;
    LastIndexOfAt(stem + [dot] + ext, dot, |stem|);
  }

  /** A path is a directory part, empty or ending in '/', then a file
      name: a non-empty stem, a dot and a non-empty extension holding
      neither dot nor slash. Its extension is the dot and that extension,
      lower-cased. */
  lemma ExtensionOfPath(dir: string, stem: string, ext: string)
    requires dir == [] || dir[|dir| - 1] == '/'
    requires stem != [] && forall i :: 0 <= i < |stem| ==> stem[i] != '/'
    requires ext != [] && forall i :: 0 <= i < |ext| ==> ext[i] != '.' && ext[i] != '/'
    ensures Extension(dir + stem + "." + ext) == Lower("." + ext)
  {
    SuffixOfPath(dir, stem, '.', ext);
  }

  /** The suffix of such a path. The dot is a parameter, pinned to '.',
      only so that the proof works on it as a value rather than a string
      literal. */
  lemma SuffixOfPath(dir: string, stem: string, dot: char, ext: string)
    requires dir == [] || dir[|dir| - 1] == '/'
    requires dot == '.'
    requires stem != [] && forall i :: 0 <= i < |stem| ==> stem[i] != '/'
    requires ext != [] && forall i :: 0 <= i < |ext| ==> ext[i] != dot && ext[i] != '/'
    ensures Suffix(dir + stem + [dot] + ext) == [dot] + ext
  {
    var name := stem + [dot] + ext;
    NoSlashInName(stem, dot, ext);
    LastDotAfterStem(stem, dot, ext);
    SuffixOfName(dir, name, |stem|);
    Regroup(dir, stem, [dot], ext);
  }

  /** Concatenation regrouped, and the part after a prefix. */
  lemma Regroup(a: string, b: string, c: string, d: string)
    ensures a + b + c + d == a + (b + c + d)
    ensures (b + c + d)[|b|..] == c + d
  {
  }

  /** Under a directory that is empty or ends in '/', the suffix of a
      name without '/' starts at its last dot when that dot neither opens
      nor closes the name. */
  lemma SuffixOfName(dir: string, name: string, k: int)
    requires dir == [] || dir[|dir| - 1] == '/'
    requires forall i :: 0 <= i < |name| ==> name[i] != '/'
    requires LastIndexOf(name, '.') == k && 0 < k < |name| - 1
    ensures Suffix(dir + name) == name[k..]
  {
    FileNameUnderDir(dir, name);
    SuffixAt(dir + name, k);
  }

  /** The converse of Suffix's contract: when the last dot of the file
      name neither opens nor closes it, the suffix is not empty, and is
      the name from that dot on. */
  lemma SuffixAt(path: string, k: int)
    requires LastIndexOf(FileName(path), '.') == k
    requires 0 < k < |FileName(path)| - 1
    ensures Suffix(path) != [] && Suffix(path) == FileName(path)[k..]
  {
  }

  /** A stem and an extension without '/', joined by a dot, hold no '/'. */
  lemma NoSlashInName(stem: string, dot: char, ext: string)
    requires dot != '/'
    requires forall i :: 0 <= i < |stem| ==> stem[i] != '/'
    requires forall i :: 0 <= i < |ext| ==> ext[i] != '/'
    ensures forall i :: 0 <= i < |stem + [dot] + ext| ==> (stem + [dot] + ext)[i] != '/'
  {
    NameAfter(stem + [dot], ext, '/');
    assert forall i :: 0 <= i < |stem| ==> (stem + [dot] + ext)[i] == stem[i];
  }

  /** A path named stem.txt, in any case, is read as text. */
  lemma TextPathIsRead(dir: string, stem: string, ext: string, io: Io)
    requires dir == [] || dir[|dir| - 1] == '/'
    requires stem != [] && forall i :: 0 <= i < |stem| ==> stem[i] != '/'
    requires Lower(ext) == "txt"
    ensures ExtractText(PathSource(dir + stem + "." + ext), io)
         == if io.readText(dir + stem + "." + ext).Some? then Ok(io.readText(dir + stem + "." + ext).value)
            else Err(FileError(dir + stem + "." + ext))
  {
    DottedExtension(ext, "txt", ".txt");
    ExtensionOfPath(dir, stem, ext);
    TextBranch(dir + stem + "." + ext, io);
  }

  /** A path named stem.pdf, in any case, goes to PDF extraction. */
  lemma PdfPathIsExtracted(dir: string, stem: string, ext: string, io: Io)
    requires dir == [] || dir[|dir| - 1] == '/'
    requires stem != [] && forall i :: 0 <= i < |stem| ==> stem[i] != '/'
    requires Lower(ext) == "pdf"
    ensures ExtractText(PathSource(dir + stem + "." + ext), io)
         == if io.readBytes(dir + stem + "." + ext).Some? then PdfToText(io.readBytes(dir + stem + "." + ext).value, io)
            else Err(FileError(dir + stem + "." + ext))
  {
    DottedExtension(ext, "pdf", ".pdf");
    ExtensionOfPath(dir, stem, ext);
    PdfBranch(dir + stem + "." + ext, io);
  }

  /** An extension that lower-cases to lower-case letters holds no dot or
      slash, and a dot in front of it lower-cases to the dot and those
      letters. */
  lemma DottedExtension(ext: string, letters: string, dotted: string)
    requires Lower(ext) == letters && dotted == "." + letters
    requires letters != [] && forall i :: 0 <= i < |letters| ==> 'a' <= letters[i] <= 'z'
    ensures ext != [] && forall i :: 0 <= i < |ext| ==> ext[i] != '.' && ext[i] != '/'
    ensures Lower("." + ext) == dotted
  {
    assert forall i :: 0 <= i < |ext| ==> LowerChar(ext[i]) == letters[i];
  }

  /** The branch a path takes once its extension is known. */
  lemma TextBranch(path: string, io: Io)
    requires Extension(path) == ".txt"
    ensures ExtractText(PathSource(path), io)
         == if io.readText(path).Some? then Ok(io.readText(path).value) else Err(FileError(path))
  {
  }

  lemma PdfBranch(path: string, io: Io)
    requires Extension(path) == ".pdf"
    ensures ExtractText(PathSource(path), io)
         == if io.readBytes(path).Some? then PdfToText(io.readBytes(path).value, io) else Err(FileError(path))
  {
  }

  /** A file name with no dot strictly inside it, such as "README",
      ".bashrc" or "notes.", has no extension, whatever directory it is
      in. */
  lemma NoExtension(dir: string, name: string)
    requires dir == [] || dir[|dir| - 1] == '/'
    requires forall i :: 0 <= i < |name| ==> name[i] != '/'
    requires forall i :: 0 < i < |name| - 1 ==> name[i] != '.'
    ensures Extension(dir + name) == ""
  {
    FileNameUnderDir(dir, name);
    NoSuffix(dir + name);
  }
}
