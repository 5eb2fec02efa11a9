/** One local HTML file as `parse_html_file` and the file listing of `main` in
    src/main.py see it. Reading the file, the HTML parser and the search for the
    article-body block are outside the model: their outcome is an input. */
module Parsing {
  import opened Wrappers
  import opened NounFilter

  /** The folder the downloaded pages are kept in. */
  const DOWNLOAD_DIR: string := "download"

  /** The extension a directory entry needs to be analysed. */
  const HTML_SUFFIX: string := ".html"

  /** What opening and parsing one file yields: the analyser's tokens for the text
      of the `article-body` block, no such block, or an exception. */
  datatype FileOutcome =
    | ArticleBody(tokens: seq<Token>)
    | NoArticleBody
    | Failed(message: string)

  /** A parsed document: its path and its de-duplicated nouns. */
  datatype Document = Document(path: string, words: set<string>)

  /** `s.endswith(suffix)`: the last `|suffix|` characters of `s` are `suffix`. */
  predicate EndsWith(s: string, suffix: string)
  {
    |suffix| <= |s| && s[|s| - |suffix|..] == suffix
  }

  /** `[f for f in entries if f.endswith(".html")]`. */
  function HtmlFiles(entries: seq<string>): (files: seq<string>)
    ensures forall f :: f in files <==> f in entries && EndsWith(f, HTML_SUFFIX)
    ensures |files| <= |entries|
    ensures Distinct(entries) ==> Distinct(files)
  {
    if entries == [] then []
    else
      var n := |entries| - 1;
      HtmlFiles(entries[..n]) + (if EndsWith(entries[n], HTML_SUFFIX) then [entries[n]] else [])
  }

  /** `os.path.join(dir, name)` on a POSIX system (`posixpath.join`): an absolute
      name replaces the folder; an empty folder or one that already ends in `/`
      is followed directly by the name; any other folder gets one `/` first. */
  function JoinPath(dir: string, name: string): (p: string)
    ensures |name| <= |p| && p[|p| - |name|..] == name
    ensures name != [] && name[0] == '/' ==> p == name
    ensures (name == [] || name[0] != '/') ==> |dir| <= |p| && p[..|dir|] == dir
    ensures (name == [] || name[0] != '/') && (dir == [] || dir[|dir| - 1] == '/') ==>
      |p| == |dir| + |name|
    ensures (name == [] || name[0] != '/') && dir != [] && dir[|dir| - 1] != '/' ==>
      |p| == |dir| + 1 + |name| && p[|dir|] == '/'
  {
    if name != [] && name[0] == '/' then name
    else if dir == [] || dir[|dir| - 1] == '/' then dir + name
    else dir + "/" + name
  }

  /** The path recorded for a file of the download folder: a relative name goes
      under `download/`. */
  function FilePath(fileName: string): (p: string)
    ensures (fileName == [] || fileName[0] != '/') ==> p == DOWNLOAD_DIR + "/" + fileName
    ensures fileName != [] && fileName[0] == '/' ==> p == fileName
  {
    JoinPath(DOWNLOAD_DIR, fileName)
  }

  /** Directory entries are bare names without a separator, so distinct entries
      give distinct paths. */
  lemma FilePathInjective(a: string, b: string)
    requires '/' !in a && '/' !in b
    requires FilePath(a) == FilePath(b)
    ensures a == b
  {
  }

  /** `parse_html_file`: no article body or an exception gives `None`; otherwise
      the file's path with the set of its nouns, each noun once however often it
      occurs in the text. */
  method ParseHtmlFile(fileName: string, outcome: FileOutcome) returns (r: Option<Document>)
    ensures r.Some? <==> outcome.ArticleBody?
    ensures r.Some? ==> r.value.path == FilePath(fileName)
    ensures r.Some? ==> forall w :: w in r.value.words <==>
      exists i :: 0 <= i < |outcome.tokens| && IsNoun(outcome.tokens[i]) && outcome.tokens[i].surface == w
  {
    match outcome
    case NoArticleBody =>
      r := None;
    case Failed(_) =>
      r := None;
    case ArticleBody(tokens) =>
      var words := ExtractWords(tokens);
      var unique := set w | w in words;
      forall w
        ensures w in unique <==>
          exists i :: 0 <= i < |tokens| && IsNoun(tokens[i]) && tokens[i].surface == w
      {
        NounsMembership(tokens, w);
      }
      r := Some(Document(FilePath(fileName), unique));
  }
}
