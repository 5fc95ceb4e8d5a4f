/**
  The client editor component (src/components/Editor/Editor.jsx): the
  file-name and MIME-type resolution of `downloadScript`, and the language
  selector's `onSelect` state update.
 */
module Editor {

  import opened Wrappers

  // ---------------------------------------------------------------------------
  // String.prototype.split with a one-character separator, and its inverse
  // ---------------------------------------------------------------------------

  /** `s.split(sep)`: the pieces of `s` between occurrences of `sep`. */
  function Split(s: string, sep: char): (parts: seq<string>)
    ensures |parts| >= 1
    decreases |s|
  {
    if s == [] then
      [""]
    else
      var rest := Split(s[1..], sep);
      if s[0] == sep then [""] + rest
      else [[s[0]] + rest[0]] + rest[1..]
  }

  /** No piece contains the separator, and there is a single piece, `s` itself, exactly when `s` has none. */
  lemma {:induction false} SplitPieces(s: string, sep: char)
    ensures forall i :: 0 <= i < |Split(s, sep)| ==> sep !in Split(s, sep)[i]
    ensures |Split(s, sep)| == 1 <==> sep !in s
    ensures |Split(s, sep)| == 1 ==> Split(s, sep)[0] == s
    decreases |s|
  {
    if s != [] {
      SplitPieces(s[1..], sep);
      var rest := Split(s[1..], sep);
      var parts := Split(s, sep);
      if s[0] == sep {
        assert parts[1..] == rest;
        assert s[0] in s;
      } else {
        assert parts[1..] == rest[1..];
        assert s == [s[0]] + s[1..];
        forall i | 0 <= i < |parts| ensures sep !in parts[i] {
          if i > 0 {
            assert parts[i] == rest[i];
          }
        }
      }
    }
  }

  /** `parts.join(sep)`. */
  function Join(parts: seq<string>, sep: char): string
    requires |parts| >= 1
    decreases |parts|
  {
    if |parts| == 1 then parts[0] else parts[0] + [sep] + Join(parts[1..], sep)
  }

  /** Joining the pieces back with the separator gives the original string. */
  lemma {:induction false} JoinSplit(s: string, sep: char)
    ensures Join(Split(s, sep), sep) == s
    decreases |s|
  {
    if s != [] {
      var rest := Split(s[1..], sep);
      var parts := Split(s, sep);
      JoinSplit(s[1..], sep);
      assert Join(rest, sep) == s[1..];
      if s[0] == sep {
        assert parts == [""] + rest;
        assert parts[1..] == rest;
        assert Join(parts, sep) == [sep] + s[1..];
      } else if |rest| == 1 {
        SplitPieces(s[1..], sep);
        assert parts == [[s[0]] + s[1..]];
      } else {
        assert parts == [[s[0]] + rest[0]] + rest[1..];
        assert parts[1..] == rest[1..];
        assert Join(parts, sep) == [s[0]] + (rest[0] + [sep] + Join(rest[1..], sep));
      }
      assert s == [s[0]] + s[1..];
    }
  }

  /** Splitting a string whose first `|p|` characters are separator-free extends the first piece by `p`. */
  lemma {:induction false} SplitAfterPlainPrefix(p: string, t: string, sep: char)
    requires sep !in p
    ensures Split(p + t, sep) == [p + Split(t, sep)[0]] + Split(t, sep)[1..]
    decreases |p|
  {
    if p != [] {
      var s := Split(t, sep);
      SplitAfterPlainPrefix(p[1..], t, sep);
      assert (p + t)[1..] == p[1..] + t;
      assert p[0] in p;
      var rest := Split(p[1..] + t, sep);
      assert rest == [p[1..] + s[0]] + s[1..];
      assert rest[0] == p[1..] + s[0] && rest[1..] == s[1..];
      assert Split(p + t, sep) == [[p[0]] + rest[0]] + rest[1..];
      assert [p[0]] + (p[1..] + s[0]) == p + s[0];
    } else {
      var s := Split(t, sep);
      assert p + t == t && p + s[0] == s[0];
      assert s == [s[0]] + s[1..];
    }
  }

  /** Splitting a join of separator-free pieces gives those pieces back. */
  lemma {:induction false} SplitJoin(parts: seq<string>, sep: char)
    requires |parts| >= 1
    requires forall i :: 0 <= i < |parts| ==> sep !in parts[i]
    ensures Split(Join(parts, sep), sep) == parts
    decreases |parts|
  {
    if |parts| == 1 {
      assert sep !in parts[0];
      SplitPieces(parts[0], sep);
    } else {
      var tail := Join(parts[1..], sep);
      SplitJoin(parts[1..], sep);
      assert sep !in parts[0];
      SplitAfterPlainPrefix(parts[0], [sep] + tail, sep);
      assert ([sep] + tail)[1..] == tail;
      var after := Split([sep] + tail, sep);
      assert after == [""] + parts[1..];
      assert after[0] == "" && after[1..] == parts[1..];
      assert Join(parts, sep) == parts[0] + ([sep] + tail);
      assert parts[0] + after[0] == parts[0];
      assert parts == [parts[0]] + parts[1..];
    }
  }

  // ---------------------------------------------------------------------------
  // The extension: `filename.split(".").pop()`
  // ---------------------------------------------------------------------------

  /** `parts.pop()` on a non-empty array: its last element, removed from the end. */
  function Last(parts: seq<string>): (last: string)
    requires |parts| >= 1
    ensures parts == parts[..|parts| - 1] + [last]
  {
    parts[|parts| - 1]
  }

  /** A join of two or more pieces ends with the separator followed by the last piece. */
  lemma {:induction false} JoinEndsWithLast(parts: seq<string>, sep: char)
    requires |parts| >= 2
    ensures Join(parts, sep) == Join(parts[..|parts| - 1], sep) + [sep] + Last(parts)
    decreases |parts|
  {
    var m := |parts| - 1;
    if |parts| == 2 {
      assert parts[..m] == [parts[0]];
      assert parts[1..] == [parts[1]];
    } else {
      JoinEndsWithLast(parts[1..], sep);
      assert parts[1..][..m - 1] == parts[..m][1..];
      assert Last(parts[1..]) == Last(parts);
    }
  }

  /** The last piece of `s.split(sep)` is a suffix of `s` that is all of `s` or comes right after a `sep`. */
  lemma LastPiece(s: string, sep: char)
    ensures var r := Last(Split(s, sep));
      && |r| <= |s| && s[|s| - |r|..] == r
      && (|r| < |s| ==> s[|s| - |r| - 1] == sep)
  {
    var parts := Split(s, sep);
    JoinSplit(s, sep);
    if |parts| >= 2 {
      JoinEndsWithLast(parts, sep);
      var front := Join(parts[..|parts| - 1], sep) + [sep];
      assert s == front + Last(parts);
      assert s[|front|..] == Last(parts);
      assert s[|front| - 1] == sep;
    }
  }

  /** The extension `downloadScript` derives from `filename`. */
  function Extension(filename: string): (ext: string)
    ensures |ext| <= |filename| && filename[|filename| - |ext|..] == ext
    ensures '.' !in ext
    ensures |ext| < |filename| ==> filename[|filename| - |ext| - 1] == '.'
    ensures |ext| == |filename| <==> '.' !in filename
    ensures |filename| > 0 && filename[|filename| - 1] == '.' ==> ext == ""
  {
    LastPiece(filename, '.');
    SplitPieces(filename, '.');
    assert '.' !in Last(Split(filename, '.'));
    assert '.' in filename ==> |Split(filename, '.')| > 1;
    Last(Split(filename, '.'))
  }

  /** The contract of `Extension` singles out one string: any suffix that meets it is the extension. */
  lemma ExtensionUnique(filename: string, ext: string)
    requires |ext| <= |filename| && filename[|filename| - |ext|..] == ext
    requires '.' !in ext
    requires |ext| < |filename| ==> filename[|filename| - |ext| - 1] == '.'
    ensures Extension(filename) == ext
  {
  }

  // ---------------------------------------------------------------------------
  // The MIME table
  // ---------------------------------------------------------------------------

  /** The `mimeTypes` lookup table of `downloadScript`. */
  const MimeTypes: map<string, string> := map[
    "js" := "text/javascript",
    "ts" := "application/typescript",
    "py" := "text/x-python",
    "java" := "text/x-java-source",
    "cs" := "text/plain",
    "php" := "application/x-httpd-php"
  ]

  /** `mimeTypes[extension] || "text/plain"`. */
  function MimeTypeFor(ext: string): (mime: string)
    ensures ext in MimeTypes ==> mime == MimeTypes[ext]
    ensures ext !in MimeTypes ==> mime == "text/plain"
    ensures mime in {"text/javascript", "application/typescript", "text/x-python",
                     "text/x-java-source", "text/plain", "application/x-httpd-php"}
  {
    var entry := if ext in MimeTypes then Some(MimeTypes[ext]) else None;
    if entry.Some? && entry.value != "" then entry.value else "text/plain"
  }

  // ---------------------------------------------------------------------------
  // downloadScript
  // ---------------------------------------------------------------------------

  /** What `downloadScript` hands to the browser: the anchor's file name, the Blob's type and content. */
  datatype Download = Download(filename: string, mimeType: string, content: string)

  /** JavaScript truthiness of an optional string: defined and non-empty. */
  predicate Truthy(o: Option<string>) {
    o.Some? && o.value != ""
  }

  /** The file name, MIME type and content `downloadScript(content, fileType)` downloads. */
  function DownloadScript(content: string, fileType: Option<string>): (d: Download)
    ensures d.content == content
    ensures Truthy(fileType) ==> d.filename == fileType.value
    ensures !Truthy(fileType) ==> d.filename == "file.txt"
    ensures d.filename != ""
    ensures d.mimeType == MimeTypeFor(Extension(d.filename))
  {
    var filename := if Truthy(fileType) then fileType.value else "file.txt";
    var extension := Extension(filename);
    Download(filename, MimeTypeFor(extension), content)
  }

  /** The default file name has extension `txt`. */
  lemma DefaultNameExtension()
    ensures Extension("file.txt") == "txt"
  {
    var name := "file.txt";
    assert name[|name| - 3..] == "txt";
    assert name[|name| - 4] == '.';
    assert '.' !in "txt";
    ExtensionUnique(name, "txt");
  }

  /** `txt` is not in the table. */
  lemma TxtIsPlainText()
    ensures MimeTypeFor("txt") == "text/plain"
  {
    assert "txt" !in MimeTypes;
  }

  /** Without a usable file type the download is `file.txt`, served as plain text. */
  lemma DefaultDownload(content: string, fileType: Option<string>)
    requires !Truthy(fileType)
    ensures DownloadScript(content, fileType) == Download("file.txt", "text/plain", content)
  {
    DefaultNameExtension();
    TxtIsPlainText();
  }

  /** A name ending in one of the table's extensions is served with that extension's MIME type. */
  lemma DownloadUsesTable(content: string, stem: string, ext: string)
    requires ext in MimeTypes
    ensures DownloadScript(content, Some(stem + "." + ext)).mimeType == MimeTypes[ext]
  {
    var name := stem + "." + ext;
    assert name[|name| - |ext|..] == ext;
    assert name[|name| - |ext| - 1] == '.';
    ExtensionUnique(name, ext);
  }

  // ---------------------------------------------------------------------------
  // The editor's React state
  // ---------------------------------------------------------------------------

  /** The `language` and `value` state of the `CodeEditor` component. */
  class CodeEditor {
    /** `CODE_SNIPPETS`: the starter code of each language. */
    const snippets: map<string, string>
    var language: string
    /** The editor text; `None` when it was set from a missing snippet. */
    var value: Option<string>

    /** `useState('')` and `useState('javascript')`. */
    constructor (snippets: map<string, string>)
      ensures this.snippets == snippets
      ensures language == "javascript" && value == Some("")
    {
      this.snippets := snippets;
      language := "javascript";
      value := Some("");
    }

    /** `onSelect(l)`: switch the language and load its snippet. */
    method OnSelect(l: string)
      modifies this
      ensures language == l
      ensures l in snippets ==> value == Some(snippets[l])
      ensures l !in snippets ==> value == None
    {
      language := l;
      value := if l in snippets then Some(snippets[l]) else None;
    }
  }
}
