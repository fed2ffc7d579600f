/**
 * File selection in the Tk front end (src/InventorAutomationApplication.py):
 * open a document by name, keep its typed view, and show the file's base
 * name in a text widget.
 */
module AutomationApp {
  import opened Host

  /** The separator `select_file` splits a file name on. */
  const PathSeparator: char := '/'

  /**
   * Python's `s.split(sep)` for a one-character separator: the pieces
   * between separators, an empty piece wherever two separators touch or a
   * separator starts or ends the string.
   */
  function Split(s: string, sep: char): (parts: seq<string>)
    ensures |parts| >= 1
    ensures forall i :: 0 <= i < |parts| ==> sep !in parts[i]
    decreases |s|
  {
    if s == [] then [[]]
    else
      var init, c := s[..|s| - 1], s[|s| - 1];
      var rest := Split(init, sep);
      if c == sep then rest + [[]]
      else rest[..|rest| - 1] + [rest[|rest| - 1] + [c]]
  }

  /** Python's `sep.join(parts)`. */
  function Join(parts: seq<string>, sep: char): string
    requires |parts| >= 1
    decreases |parts|
  {
    if |parts| == 1 then parts[0]
    else Join(parts[..|parts| - 1], sep) + [sep] + parts[|parts| - 1]
  }

  /** Joining the pieces of a split gives back the string. */
  lemma {:induction false} JoinSplit(s: string, sep: char)
    ensures Join(Split(s, sep), sep) == s
    decreases |s|
  {
    if s != [] {
      var init, c := s[..|s| - 1], s[|s| - 1];
      var rest := Split(init, sep);
      JoinSplit(init, sep);
      assert s == init + [c];
      if c == sep {
        assert (rest + [[]])[..|rest|] == rest;
      } else {
        var n := |rest| - 1;
        var parts := rest[..n] + [rest[n] + [c]];
        assert parts[..n] == rest[..n];
        if n == 0 {
          assert Join(rest, sep) == rest[0];
        } else {
          assert Join(rest, sep) == Join(rest[..n], sep) + [sep] + rest[n];
        }
      }
    }
  }

  /** Splitting a join of separator-free pieces gives back the pieces. */
  lemma {:induction false} SplitJoin(parts: seq<string>, sep: char)
    requires |parts| >= 1
    requires forall i :: 0 <= i < |parts| ==> sep !in parts[i]
    ensures Split(Join(parts, sep), sep) == parts
    decreases |parts|
  {
    var n := |parts| - 1;
    if n == 0 {
      SplitPiece(parts[0], sep);
    } else {
      SplitJoin(parts[..n], sep);
      SplitAfterSeparator(Join(parts[..n], sep), parts[n], sep);
      assert parts == parts[..n] + [parts[n]];
    }
  }

  /** A separator-free string splits into itself. */
  lemma {:induction false} SplitPiece(p: string, sep: char)
    requires sep !in p
    ensures Split(p, sep) == [p]
    decreases |p|
  {
    if p != [] {
      var init := p[..|p| - 1];
      SplitPiece(init, sep);
      assert p == init + [p[|p| - 1]];
    }
  }

  /** Appending a separator and a separator-free piece appends that piece. */
  lemma {:induction false} SplitAfterSeparator(x: string, p: string, sep: char)
    requires sep !in p
    ensures Split(x + [sep] + p, sep) == Split(x, sep) + [p]
    decreases |p|
  {
    var s := x + [sep] + p;
    if p == [] {
      assert s[..|s| - 1] == x;
    } else {
      var init, c := p[..|p| - 1], p[|p| - 1];
      SplitAfterSeparator(x, init, sep);
      assert s[..|s| - 1] == x + [sep] + init;
      assert s[|s| - 1] == c && c != sep;
      var rest := Split(x, sep) + [init];
      assert Split(s, sep) == rest[..|rest| - 1] + [rest[|rest| - 1] + [c]];
      assert p == init + [c];
    }
  }

  /** `filename.split("/")[-1]`: what select_file writes into the text widget. */
  function Basename(name: string): string {
    var parts := Split(name, PathSeparator);
    parts[|parts| - 1]
  }

  /**
   * The base name is the part of the name after its last '/': a suffix
   * with no '/' in it, that is either the whole name or preceded by '/'.
   */
  lemma {:induction false} BasenameIsLastSegment(name: string)
    ensures var b := Basename(name);
      && PathSeparator !in b
      && |b| <= |name|
      && name[|name| - |b|..] == b
      && (|b| == |name| || name[|name| - |b| - 1] == PathSeparator)
    decreases |name|
  {
    if name != [] {
      var init, c := name[..|name| - 1], name[|name| - 1];
      BasenameIsLastSegment(init);
      assert name == init + [c];
    }
  }

  /** A name without '/' is shown whole. */
  lemma BasenameOfPlainName(name: string)
    requires PathSeparator !in name
    ensures Basename(name) == name
  {
    SplitPiece(name, PathSeparator);
  }

  /** A '/'-separated path is shown as its last segment. */
  lemma BasenameOfPath(dirs: seq<string>, file: string)
    requires forall i :: 0 <= i < |dirs| ==> PathSeparator !in dirs[i]
    requires PathSeparator !in file
    ensures Basename(Join(dirs + [file], PathSeparator)) == file
  {
    var parts := dirs + [file];
    forall i | 0 <= i < |parts|
      ensures PathSeparator !in parts[i]
    {
      if i < |dirs| {
        assert parts[i] == dirs[i];
      }
    }
    SplitJoin(parts, PathSeparator);
    assert parts[|parts| - 1] == file;
  }

  /** The Tk Text widget, reduced to the text it holds. */
  class TextBox {
    var content: string

    constructor (initial: string)
      ensures content == initial
    {
      content := initial;
    }

    /** `delete("1.0", END)`: removes every character. */
    method DeleteAll()
      modifies this
      ensures content == []
    {
      content := [];
    }

    /** `insert(END, s)`: appends `s`. */
    method InsertAtEnd(s: string)
      modifies this
      ensures content == old(content) + s
    {
      content := content + s;
    }
  }

  class InventorAutomationApplication {
    var app: Option<HostApp>
    var doc: Option<Doc>
    var assemblyDoc: Option<View>

    /** The application after connect_to_inventor left `host` (None on failure). */
    constructor (host: Option<HostApp>)
      ensures app == host && doc == None && assemblyDoc == None
    {
      app := host;
      doc := None;
      assemblyDoc := None;
    }

    /**
     * select_file: opens `filename`, or the dialog's `pick` when it is
     * empty, with no check for a cancelled dialog. Returns (True, name) and
     * shows the base name when the open succeeds; returns (False, None)
     * and touches nothing otherwise.
     */
    method SelectFile(filename: string, textVar: TextBox?, pick: string) returns (ok: bool, chosen: Option<string>)
      modifies this, textVar
      ensures app == old(app)
      ensures var name := DialogOr(filename, pick);
        && (ok <==> Open(app, name).Some?)
        && (ok ==> chosen == Some(name) && doc == Open(app, name)
                   && assemblyDoc == Some(ViewOf(doc.value)))
        && (ok && textVar != null ==> textVar.content == Basename(name))
      ensures ok && filename != "" ==> chosen == Some(filename)
      ensures !ok ==> chosen == None && doc == old(doc) && assemblyDoc == old(assemblyDoc)
      ensures !ok && textVar != null ==> textVar.content == old(textVar.content)
    {
      var name := DialogOr(filename, pick);
      var found := Open(app, name);
      if found.None? {
        return false, None;
      }
      doc := found;
      if found.value.docType == AssemblyDocumentType {
        assemblyDoc := Some(AssemblyView(found.value));
      } else {
        assemblyDoc := Some(PartView(found.value));
      }
      if textVar != null {
        textVar.DeleteAll();
        textVar.InsertAtEnd(Basename(name));
      }
      return true, Some(name);
    }
  }
}
