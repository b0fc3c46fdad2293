/** The document list page of `src/pages/Dashboard.jsx`: which files may
    be imported and how their name and text become a title and content,
    the search filter, the statistics, and how the local list changes
    after a create, import or delete. */
module DashboardPage {
  import opened Wrappers
  import opened Seqs
  import opened Text
  import opened DocumentModel
  import opened Controller

  /** One document as the list holds it. */
  datatype Entry = Entry(id: DocId, document: Document)

  const AllowedTypes: seq<string> := ["text/plain", "text/markdown", "text/html", "application/json"]
  const AllowedExtensions: seq<string> := [".txt", ".md", ".html", ".json"]
  const ImportRefused: string := "Please upload a .txt, .md, .html, or .json file"

  /** The text after the last `'.'`, or the whole name without one. */
  function LastSegment(name: string): (r: string)
    ensures '.' !in r
    ensures '.' !in name ==> r == name
    ensures '.' in name ==> exists i :: 0 <= i < |name| && name[i] == '.' && r == name[i + 1..]
  {
    match LastIndexOf(name, '.')
    case None => name
    case Some(i) => name[i + 1..]
  }

  /** `'.' + file.name.split('.').pop().toLowerCase()`. */
  function FileExtension(name: string): string {
    var parts := Split(name, '.');
    "." + ToLower(parts[|parts| - 1])
  }

  /** The last piece of `split('.')` is the text after the last dot: cut
      at that dot, the name splits into the pieces before it and one piece
      after it. */
  lemma LastPieceIsLastSegment(name: string)
    ensures Split(name, '.')[|Split(name, '.')| - 1] == LastSegment(name)
  {
    match LastIndexOf(name, '.')
    case None =>
      SplitNone(name, '.');
    case Some(k) =>
      var front, back := name[..k], name[k + 1..];
      assert name == front + ['.'] + back;
      SplitAppend(front, back, '.');
      SplitNone(back, '.');
      LastOfSnoc(Split(front, '.'), back, Split(name, '.'));
  }

  /** The last element of `xs + [y]`. */
  lemma LastOfSnoc<T>(xs: seq<T>, y: T, whole: seq<T>)
    requires whole == xs + [y]
    ensures whole != [] && whole[|whole| - 1] == y
  {
  }

  /** A dot with no dot after it is the one `LastIndexOf` finds. */
  lemma LastDot(name: string, k: nat)
    requires k < |name| && name[k] == '.' && '.' !in name[k + 1..]
    ensures LastIndexOf(name, '.') == Some(k)
  {
  }

  /** So the extension is the lower-cased text after the last dot, or the
      whole lower-cased name when there is no dot. */
  lemma FileExtensionMeaning(name: string)
    ensures FileExtension(name) == "." + ToLower(LastSegment(name))
    ensures '.' !in name ==> FileExtension(name) == "." + ToLower(name)
  {
    var parts := Split(name, '.');
    LastPieceIsLastSegment(name);
    assert parts[|parts| - 1] == LastSegment(name);
  }

  /** `allowedTypes.includes(file.type) || allowedExtensions.includes(fileExt)`. */
  predicate ImportAccepted(name: string, mimeType: string) {
    mimeType in AllowedTypes || FileExtension(name) in AllowedExtensions
  }

  /** `file.name.replace(/\.[^/.]+$/, '')`: one trailing extension, made of
      at least one character and containing neither `'/'` nor `'.'`, comes
      off; any other name is left as it is. */
  function StripExtension(name: string): (r: string)
    ensures r == name || (exists i :: 0 <= i < |name| && name[i] == '.' && r == name[..i])
    ensures r != name ==> exists ext :: name == r + "." + ext && ext != "" && '/' !in ext && '.' !in ext
  {
    match LastIndexOf(name, '.')
    case None => name
    case Some(i) =>
      var ext := name[i + 1..];
      if ext != "" && '/' !in ext then
        assert name == name[..i] + "." + ext;
        name[..i]
      else name
  }

  /** Stripping takes off exactly the extension that was put on. */
  lemma StripExtensionRoundTrip(base: string, ext: string)
    requires ext != "" && '/' !in ext && '.' !in ext
    ensures StripExtension(base + "." + ext) == base
  {
    var name := base + "." + ext;
    assert name[|base|] == '.';
    assert name[|base| + 1..] == ext;
    LastDot(name, |base|);
    assert name[..|base|] == base;
  }

  /** A name whose last dot is followed by nothing or by a path separator
      keeps its name. */
  lemma StripExtensionKeeps(name: string)
    requires '.' !in name || LastSegment(name) == "" || '/' in LastSegment(name)
    ensures StripExtension(name) == name
  {
  }

  /** `line => line.trim()` as a filter test. */
  predicate NonBlank(line: string) {
    !AllSpace(line)
  }

  function Paragraph(line: string): string {
    "<p>" + line + "</p>"
  }

  /** The `.txt` conversion: every line that is not blank becomes a
      paragraph, untrimmed, and the paragraphs are joined in order. */
  function TxtToHtml(text: string): string {
    Concat(Map(Filter(Split(text, '\n'), NonBlank), Paragraph))
  }

  /** One line: a paragraph, or nothing when it is blank. */
  lemma TxtLine(line: string)
    requires '\n' !in line
    ensures TxtToHtml(line) == if AllSpace(line) then "" else Paragraph(line)
  {
    assert Split(line, '\n') == [line];
    var kept := Filter([line], NonBlank);
    assert kept == if NonBlank(line) then [line] else [];
    if NonBlank(line) {
      assert Map(kept, Paragraph) == [Paragraph(line)];
      assert Concat([Paragraph(line)]) == Paragraph(line) + Concat([]);
    } else {
      assert Map(kept, Paragraph) == [];
    }
  }

  /** Lines convert independently: the conversion of two texts joined by a
      line break is the conversion of the first followed by that of the
      second. */
  lemma TxtToHtmlAppend(a: string, b: string)
    ensures TxtToHtml(a + "\n" + b) == TxtToHtml(a) + TxtToHtml(b)
  {
    SplitAppend(a, b, '\n');
    FilterAppend(Split(a, '\n'), Split(b, '\n'), NonBlank);
    MapAppend(Filter(Split(a, '\n'), NonBlank), Filter(Split(b, '\n'), NonBlank), Paragraph);
    ConcatAppend(Map(Filter(Split(a, '\n'), NonBlank), Paragraph), Map(Filter(Split(b, '\n'), NonBlank), Paragraph));
  }

  /** The title and content an accepted import posts. The markdown
      conversion is a parameter of the model. */
  function ImportRequest(name: string, mimeType: string, text: string, markdown: string -> string)
    : (r: Result<(string, string), string>)
    ensures r.Failure? <==> !ImportAccepted(name, mimeType)
    ensures r.Failure? ==> r.error == ImportRefused
    ensures r.Success? ==> r.value.0 == StripExtension(name)
    ensures r.Success? && FileExtension(name) == ".txt" ==> r.value.1 == TxtToHtml(text)
    ensures r.Success? && FileExtension(name) == ".md" ==> r.value.1 == markdown(text)
    ensures r.Success? && FileExtension(name) !in [".txt", ".md"] ==> r.value.1 == text
  {
    if !ImportAccepted(name, mimeType) then Failure(ImportRefused)
    else
      var ext := FileExtension(name);
      var content := if ext == ".txt" then TxtToHtml(text) else if ext == ".md" then markdown(text) else text;
      Success((StripExtension(name), content))
  }

  /** A file called just `.txt` posts an empty title, which the server
      replaces by its default. */
  lemma BareExtensionGetsDefaultTitle(content: Option<string>, u: UserId)
    ensures StripExtension(".txt") == ""
    ensures Created(Some(StripExtension(".txt")), content, u).Success?
    ensures Created(Some(StripExtension(".txt")), content, u).value.title == DefaultTitle
  {
    StripExtensionRoundTrip("", "txt");
    assert "" + "." + "txt" == ".txt";
    CreatedUntitled(Some(""), content, u);
  }

  /** The search test: the lower-cased title contains the lower-cased query. */
  function Matches(query: string): Entry -> bool {
    (e: Entry) => Contains(ToLower(e.document.title), ToLower(query))
  }

  /** `filteredDocuments`. */
  function FilterDocuments(entries: seq<Entry>, query: string): (r: seq<Entry>)
    ensures forall e :: e in r <==> e in entries && Contains(ToLower(e.document.title), ToLower(query))
  {
    Filter(entries, Matches(query))
  }

  /** An empty query lists everything, in order. */
  lemma EmptyQueryKeepsAll(entries: seq<Entry>)
    ensures FilterDocuments(entries, "") == entries
  {
    forall e | e in entries ensures Matches("")(e) {
      assert OccursAt(ToLower(e.document.title), ToLower(""), 0);
    }
    FilterKeepsAll(entries, Matches(""));
  }

  /** Searching again with the same query changes nothing. */
  lemma SearchIdempotent(entries: seq<Entry>, query: string)
    ensures FilterDocuments(FilterDocuments(entries, query), query) == FilterDocuments(entries, query)
  {
    FilterIdempotent(entries, Matches(query));
  }

  /** The search ignores letter case in the query. */
  lemma SearchIgnoresQueryCase(entries: seq<Entry>, query: string)
    ensures FilterDocuments(entries, ToUpper(query)) == FilterDocuments(entries, ToLower(query))
  {
    assert ToLower(ToUpper(query)) == ToLower(ToLower(query));
    assert Matches(ToUpper(query)) == Matches(ToLower(query));
  }

  function IsShared(e: Entry): bool {
    |e.document.collaborators| > 0
  }

  /** The "Shared Documents" figure. */
  function SharedCount(entries: seq<Entry>): nat {
    |Filter(entries, IsShared)|
  }

  /** Shared and unshared documents add up to the "Total Documents" figure. */
  lemma SharedAndPrivateMakeTotal(entries: seq<Entry>)
    ensures SharedCount(entries) + |Filter(entries, Not(IsShared))| == |entries|
    ensures SharedCount(entries) <= |entries|
  {
    FilterPartition(entries, IsShared);
  }

  /** `!newDocTitle.trim()` refuses a title. */
  predicate CanCreate(title: string) {
    Trim(title) != ""
  }

  /** The page refuses exactly the titles the schema would find missing. */
  lemma CreateCheckMatchesSchema(title: string)
    ensures !CanCreate(title) <==> CastTitle(title) == Failure(TitleRequired)
  {
  }

  /** `documents.filter(d => d._id !== docId)`. */
  function WithoutEntry(entries: seq<Entry>, id: DocId): (r: seq<Entry>)
    ensures forall e :: e in r <==> e in entries && e.id != id
  {
    Filter(entries, (e: Entry) => e.id != id)
  }

  /** The `documents` state of the page. */
  class DocumentList {
    var entries: seq<Entry>

    constructor (fetched: seq<Entry>)
      ensures entries == fetched
    {
      entries := fetched;
    }

    /** A created or imported document goes to the front. */
    method Prepend(e: Entry)
      modifies this
      ensures entries == [e] + old(entries)
    {
      entries := [e] + entries;
    }

    /** A successful delete drops the deleted document. */
    method Deleted(id: DocId)
      modifies this
      ensures entries == WithoutEntry(old(entries), id)
    {
      entries := WithoutEntry(entries, id);
    }
  }
}
