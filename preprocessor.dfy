/** DataCleaner (src/preprocessor.py): a filing's text, loaded once, and the plain text of
    an HTML filing with its scripts, style sheets, tags and whitespace runs removed. */
module Preprocessor {
  import opened Wrappers
  import opened Text

  // ---------------------------------------------------------------------------------
  // HTML detection

  /** The two markers `is_html` looks for in the lower-cased content. */
  const HtmlMarker: string := "<html"
  const DoctypeMarker: string := "<!doctype html"

  /** `"<html" in c.lower() or "<!doctype html" in c.lower()` */
  predicate IsHtmlText(content: string) {
    Contains(Lower(content), HtmlMarker) || Contains(Lower(content), DoctypeMarker)
  }

  // ---------------------------------------------------------------------------------
  // The parsed document

  /** The tree the HTML parser builds.  `Comment` stands for every markup string that
      `get_text` does not extract (comments, the doctype, declarations). */
  datatype Node =
    | Element(name: string, children: seq<Node>)
    | Text(data: string)
    | Comment(data: string)

  /** The tags `clean_html` decomposes. */
  predicate IsHidden(name: string) {
    name == "script" || name == "style"
  }

  /** No `script` or `style` element at any depth. */
  predicate NoHidden(nodes: seq<Node>)
    decreases nodes
  {
    || nodes == []
    || (&& (nodes[0].Element? ==> !IsHidden(nodes[0].name) && NoHidden(nodes[0].children))
        && NoHidden(nodes[1..]))
  }

  /** The document after `tag.decompose()` on every `script` and `style` element: each such
      subtree is gone, everything else keeps its place. */
  function RemoveHidden(nodes: seq<Node>): (r: seq<Node>)
    ensures NoHidden(r)
    decreases nodes
  {
    if nodes == [] then []
    else
      var n := nodes[0];
      var head := if n.Element? then (if IsHidden(n.name) then [] else [Element(n.name, RemoveHidden(n.children))]) else [n];
      assert NoHidden(head);
      var rest := RemoveHidden(nodes[1..]);
      NoHiddenAppend(head, rest);
      head + rest
  }

  /** The text strings of the document in document order (`_all_strings`). */
  function AllStrings(nodes: seq<Node>): seq<string>
    decreases nodes
  {
    if nodes == [] then []
    else
      var n := nodes[0];
      (match n
       case Element(_, children) => AllStrings(children)
       case Text(data) => [data]
       case Comment(_) => [])
      + AllStrings(nodes[1..])
  }

  /** The text strings of the document outside every `script` and `style` subtree, at any
      depth: a reference definition of what the decomposed document still holds. */
  function VisibleStrings(nodes: seq<Node>): seq<string>
    decreases nodes
  {
    if nodes == [] then []
    else
      var n := nodes[0];
      (match n
       case Element(name, children) => if IsHidden(name) then [] else VisibleStrings(children)
       case Text(data) => [data]
       case Comment(_) => [])
      + VisibleStrings(nodes[1..])
  }

  /** Each string stripped, the empty ones dropped (`strip=True`). */
  function StrippedStrings(strings: seq<string>): seq<string> {
    if strings == [] then []
    else
      var s := Strip(strings[0]);
      (if s == [] then [] else [s]) + StrippedStrings(strings[1..])
  }

  /** Non-empty, with no whitespace at either end. */
  predicate Trimmed(s: string) {
    s != [] && !IsSpace(s[0]) && !IsSpace(s[|s| - 1])
  }

  /** `soup.get_text(separator=' ', strip=True)` */
  function GetText(nodes: seq<Node>): string {
    Join(StrippedStrings(AllStrings(nodes)), " ")
  }

  // ---------------------------------------------------------------------------------
  // Whitespace collapse

  /** `re.sub(r'\s+', ' ', s)`: every maximal run of whitespace becomes one space. */
  function Collapse(s: string): string
    decreases |s|
  {
    if s == [] then []
    else if IsSpace(s[0]) then
      [' '] + Collapse(TrimStart(s))
    else [s[0]] + Collapse(s[1..])
  }

  /** The non-whitespace characters of `s`, in order. */
  function Visible(s: string): (r: string)
    ensures forall k :: 0 <= k < |r| ==> !IsSpace(r[k])
  {
    if s == [] then [] else (if IsSpace(s[0]) then [] else [s[0]]) + Visible(s[1..])
  }

  /** What the collapse leaves: the only whitespace is the plain space, never two in a row. */
  predicate Collapsed(s: string) {
    && (forall k :: 0 <= k < |s| && IsSpace(s[k]) ==> s[k] == ' ')
    && (forall k :: 1 <= k < |s| && IsSpace(s[k]) ==> !IsSpace(s[k - 1]))
  }

  /** `clean_html` on the parsed document. */
  function CleanHtmlText(document: seq<Node>): string {
    Collapse(GetText(RemoveHidden(document)))
  }

  /** `get_clean_text` on loaded content; `parse` stands for the HTML parser. */
  function CleanText(content: string, parse: string -> seq<Node>): string {
    if IsHtmlText(content) then CleanHtmlText(parse(content)) else content
  }

  // ---------------------------------------------------------------------------------
  // The cleaner object

  /** A cleaner for one file.  `content` is read from disk the first time any of the
      operations needs it; `loads` counts the reads. */
  class DataCleaner {
    const filePath: string
    var content: Option<string>
    ghost var loads: nat

    constructor (filePath: string)
      ensures this.filePath == filePath
      ensures content == None && loads == 0
    {
      this.filePath := filePath;
      content := None;
      loads := 0;
    }

    /** `load_file`: `disk` maps a path to the text a read of that file gives. */
    method LoadFile(disk: string -> string)
      modifies this
      ensures content == Some(disk(filePath))
      ensures loads == old(loads) + 1
    {
      content := Some(disk(filePath));
      loads := loads + 1;
    }

    /** The guard every public operation starts with: load only while nothing is loaded. */
    method EnsureLoaded(disk: string -> string)
      modifies this
      ensures content == if old(content).None? then Some(disk(filePath)) else old(content)
      ensures loads == if old(content).None? then old(loads) + 1 else old(loads)
    {
      if content.None? {
        LoadFile(disk);
      }
    }

    /** `is_html` */
    method IsHtml(disk: string -> string) returns (html: bool)
      modifies this
      ensures content == if old(content).None? then Some(disk(filePath)) else old(content)
      ensures loads == if old(content).None? then old(loads) + 1 else old(loads)
      ensures html == IsHtmlText(content.value)
    {
      EnsureLoaded(disk);
      html := Contains(Lower(content.value), HtmlMarker) || Contains(Lower(content.value), DoctypeMarker);
    }

    /** `clean_html`: `parse` stands for the HTML parser. */
    method CleanHtml(disk: string -> string, parse: string -> seq<Node>) returns (text: string)
      modifies this
      ensures content == if old(content).None? then Some(disk(filePath)) else old(content)
      ensures loads == if old(content).None? then old(loads) + 1 else old(loads)
      ensures text == CleanHtmlText(parse(content.value))
    {
      EnsureLoaded(disk);
      var soup := parse(content.value);
      soup := RemoveHidden(soup);
      var raw := GetText(soup);
      text := Collapse(raw);
    }

    /** `get_clean_text`: the cleaned text of an HTML file, the content as it is otherwise. */
    method GetCleanText(disk: string -> string, parse: string -> seq<Node>) returns (text: string)
      modifies this
      ensures content == if old(content).None? then Some(disk(filePath)) else old(content)
      ensures loads == if old(content).None? then old(loads) + 1 else old(loads)
      ensures text == CleanText(content.value, parse)
    {
      EnsureLoaded(disk);
      var html := IsHtml(disk);
      if html {
        text := CleanHtml(disk, parse);
      } else {
        text := content.value;
      }
    }
  }

  // ---------------------------------------------------------------------------------
  // Properties of HTML detection

  /** Lower-casing the content first makes the test blind to the case of the markers. */
  lemma IsHtmlCaseInsensitive(a: string, b: string)
    requires |a| == |b|
    requires forall k :: 0 <= k < |a| ==> LowerChar(a[k]) == LowerChar(b[k])
    ensures IsHtmlText(a) <==> IsHtmlText(b)
  {
    assert Lower(a) == Lower(b);
  }

  /** A marker written in any case is detected. */
  lemma IsHtmlExamples()
    ensures IsHtmlText("<HTML><body>10-K</body></HTML>")
    ensures IsHtmlText("<!DOCTYPE html>")
    ensures !IsHtmlText("ANNUAL REPORT")
  {
    var a := "<HTML><body>10-K</body></HTML>";
    assert StartsWith(Lower(a)[0..], HtmlMarker) by {
      assert Lower(a)[..5] == "<html";
    }
    var b := "<!DOCTYPE html>";
    assert StartsWith(Lower(b)[0..], DoctypeMarker) by {
      assert Lower(b)[..14] == "<!doctype html";
    }
    var c := Lower("ANNUAL REPORT");
    assert '<' !in c;
    forall i | 0 <= i <= |c| ensures !StartsWith(c[i..], HtmlMarker) && !StartsWith(c[i..], DoctypeMarker) {
      if i < |c| { assert c[i..][0] != '<'; }
    }
  }

  // ---------------------------------------------------------------------------------
  // Properties of the document cleaning

  lemma {:induction false} NoHiddenAppend(a: seq<Node>, b: seq<Node>)
    requires NoHidden(a) && NoHidden(b)
    ensures NoHidden(a + b)
    decreases |a|
  {
    if a != [] {
      NoHiddenAppend(a[1..], b);
      assert (a + b)[0] == a[0];
      assert (a + b)[1..] == a[1..] + b;
    } else {
      assert a + b == b;
    }
  }

  /** Decomposing works node by node. */
  lemma {:induction false} RemoveHiddenAppend(a: seq<Node>, b: seq<Node>)
    ensures RemoveHidden(a + b) == RemoveHidden(a) + RemoveHidden(b)
    decreases |a|
  {
    if a != [] {
      RemoveHiddenAppend(a[1..], b);
      assert (a + b)[0] == a[0];
      assert (a + b)[1..] == a[1..] + b;
    } else {
      assert a + b == b;
    }
  }

  /** A document without scripts or style sheets is left as it is, and only such a document:
      decomposing twice removes nothing more. */
  lemma {:induction false} RemoveHiddenFixedPoint(nodes: seq<Node>)
    ensures RemoveHidden(nodes) == nodes <==> NoHidden(nodes)
    ensures RemoveHidden(RemoveHidden(nodes)) == RemoveHidden(nodes)
    decreases nodes
  {
    if nodes != [] {
      var n := nodes[0];
      RemoveHiddenFixedPoint(nodes[1..]);
      if n.Element? {
        RemoveHiddenFixedPoint(n.children);
      }
      assert nodes == [n] + nodes[1..];
      // A decomposed first node leaves too few nodes for the document to be unchanged.
      RemoveHiddenShrinks(nodes[1..]);
    }
    var r := RemoveHidden(nodes);
    if NoHidden(r) {
      RemoveHiddenNoHidden(r);
    }
  }

  lemma {:induction false} RemoveHiddenShrinks(nodes: seq<Node>)
    ensures |RemoveHidden(nodes)| <= |nodes|
    decreases nodes
  {
    if nodes != [] {
      RemoveHiddenShrinks(nodes[1..]);
    }
  }

  lemma {:induction false} RemoveHiddenNoHidden(nodes: seq<Node>)
    requires NoHidden(nodes)
    ensures RemoveHidden(nodes) == nodes
    decreases nodes
  {
    if nodes != [] {
      RemoveHiddenNoHidden(nodes[1..]);
      if nodes[0].Element? {
        RemoveHiddenNoHidden(nodes[0].children);
      }
      assert nodes == [nodes[0]] + nodes[1..];
    }
  }

  lemma {:induction false} AllStringsAppend(a: seq<Node>, b: seq<Node>)
    ensures AllStrings(a + b) == AllStrings(a) + AllStrings(b)
    decreases |a|
  {
    if a != [] {
      AllStringsAppend(a[1..], b);
      assert (a + b)[0] == a[0];
      assert (a + b)[1..] == a[1..] + b;
    } else {
      assert a + b == b;
    }
  }

  /** A `script` or `style` element contributes nothing to the cleaned text, whatever it holds:
      the result is that of the document without it. */
  lemma HiddenIgnored(before: seq<Node>, name: string, children: seq<Node>, after: seq<Node>)
    requires IsHidden(name)
    ensures CleanHtmlText(before + [Element(name, children)] + after) == CleanHtmlText(before + after)
  {
    HiddenRemoved(before, Element(name, children), after);
  }

  lemma HiddenRemoved(before: seq<Node>, e: Node, after: seq<Node>)
    requires e.Element? && IsHidden(e.name)
    ensures RemoveHidden(before + [e] + after) == RemoveHidden(before + after)
  {
    RemoveHiddenAppend(before + [e], after);
    RemoveHiddenAppend(before, [e]);
    RemoveHiddenAppend(before, after);
    assert [e][0] == e && [e][1..] == [];
    assert RemoveHidden([e]) == [] + RemoveHidden([]);
    assert RemoveHidden(before) + [] == RemoveHidden(before);
  }

  /** Any other element stays, with its children cleaned, and contributes their strings. */
  lemma VisibleElement(name: string, children: seq<Node>)
    requires !IsHidden(name)
    ensures RemoveHidden([Element(name, children)]) == [Element(name, RemoveHidden(children))]
    ensures AllStrings(RemoveHidden([Element(name, children)])) == AllStrings(RemoveHidden(children))
  {
    var e := Element(name, RemoveHidden(children));
    assert [e][1..] == [];
    assert AllStrings([e]) == AllStrings(e.children) + AllStrings([]);
  }

  /** After the decompose loop the document holds exactly the strings outside every script
      and style subtree, at any depth, in document order. */
  lemma {:induction false} RemoveHiddenStrings(nodes: seq<Node>)
    ensures AllStrings(RemoveHidden(nodes)) == VisibleStrings(nodes)
    decreases nodes
  {
    if nodes != [] {
      var n := nodes[0];
      var head := if n.Element? then (if IsHidden(n.name) then [] else [Element(n.name, RemoveHidden(n.children))]) else [n];
      var rest := RemoveHidden(nodes[1..]);
      assert RemoveHidden(nodes) == head + rest;
      AllStringsAppend(head, rest);
      RemoveHiddenStrings(nodes[1..]);
      if n.Element? && !IsHidden(n.name) {
        RemoveHiddenStrings(n.children);
        assert head[1..] == [];
        assert AllStrings(head) == AllStrings(RemoveHidden(n.children)) + AllStrings([]);
      } else if !n.Element? {
        assert head[1..] == [];
      }
    }
  }

  /** The cleaned text of an HTML document is built from its visible strings alone: no string
      inside a script or style subtree, at any depth, takes part. */
  lemma CleanHtmlVisible(document: seq<Node>)
    ensures CleanHtmlText(document) == Collapse(Join(StrippedStrings(VisibleStrings(document)), " "))
  {
    RemoveHiddenStrings(document);
  }

  lemma {:induction false} VisibleStringsAppend(a: seq<Node>, b: seq<Node>)
    ensures VisibleStrings(a + b) == VisibleStrings(a) + VisibleStrings(b)
    decreases |a|
  {
    if a != [] {
      VisibleStringsAppend(a[1..], b);
      assert (a + b)[0] == a[0];
      assert (a + b)[1..] == a[1..] + b;
    } else {
      assert a + b == b;
    }
  }

  /** A script or style element anywhere below a visible element is ignored as well: the
      cleaned text is that of the document with it taken out of its parent. */
  lemma HiddenIgnoredNested(outerBefore: seq<Node>, parent: string, before: seq<Node>, name: string,
                            children: seq<Node>, after: seq<Node>, outerAfter: seq<Node>)
    requires IsHidden(name) && !IsHidden(parent)
    ensures CleanHtmlText(outerBefore + [Element(parent, before + [Element(name, children)] + after)] + outerAfter)
         == CleanHtmlText(outerBefore + [Element(parent, before + after)] + outerAfter)
  {
    var inner := before + [Element(name, children)] + after;
    var e, e' := Element(parent, inner), Element(parent, before + after);
    VisibleStringsAppend(before + [Element(name, children)], after);
    VisibleStringsAppend(before, [Element(name, children)]);
    VisibleStringsAppend(before, after);
    assert [Element(name, children)][1..] == [];
    assert VisibleStrings([Element(name, children)]) == [];
    assert VisibleStrings(inner) == VisibleStrings(before + after);
    assert [e][1..] == [] && [e'][1..] == [];
    assert VisibleStrings([e]) == VisibleStrings([e']);
    VisibleStringsAppend(outerBefore + [e], outerAfter);
    VisibleStringsAppend(outerBefore, [e]);
    VisibleStringsAppend(outerBefore + [e'], outerAfter);
    VisibleStringsAppend(outerBefore, [e']);
    CleanHtmlVisible(outerBefore + [e] + outerAfter);
    CleanHtmlVisible(outerBefore + [e'] + outerAfter);
  }

  /** The extracted text is the stripped strings joined by single spaces: it neither starts
      nor ends with whitespace. */
  lemma {:induction false} JoinTrimmed(parts: seq<string>)
    requires forall k :: 0 <= k < |parts| ==> Trimmed(parts[k])
    ensures var s := Join(parts, " ");
            (s == [] <==> parts == []) && (s != [] ==> !IsSpace(s[0]) && !IsSpace(s[|s| - 1]))
  {
    if |parts| > 1 {
      JoinTrimmed(parts[1..]);
      var rest := Join(parts[1..], " ");
      assert Join(parts, " ") == parts[0] + " " + rest;
      assert (parts[0] + " " + rest)[0] == parts[0][0];
    }
  }

  /** Every string kept by `strip=True` is non-empty and trimmed. */
  lemma {:induction false} StrippedStringsTrimmed(strings: seq<string>)
    ensures forall k :: 0 <= k < |StrippedStrings(strings)| ==> Trimmed(StrippedStrings(strings)[k])
  {
    if strings != [] {
      var s := Strip(strings[0]);
      var head := if s == [] then [] else [s];
      var rest := StrippedStrings(strings[1..]);
      StrippedStringsTrimmed(strings[1..]);
      assert StrippedStrings(strings) == head + rest;
      forall k | 0 <= k < |head + rest| ensures Trimmed((head + rest)[k]) {
        if k < |head| { assert (head + rest)[k] == s; } else { assert (head + rest)[k] == rest[k - |head|]; }
      }
    }
  }

  lemma GetTextTrimmed(nodes: seq<Node>)
    ensures var s := GetText(nodes);
            s != [] ==> !IsSpace(s[0]) && !IsSpace(s[|s| - 1])
  {
    StrippedStringsTrimmed(AllStrings(nodes));
    JoinTrimmed(StrippedStrings(AllStrings(nodes)));
  }

  // ---------------------------------------------------------------------------------
  // Properties of the whitespace collapse

  lemma {:induction false} TrimStartVisible(s: string)
    ensures Visible(TrimStart(s)) == Visible(s)
    decreases |s|
  {
    if s != [] && IsSpace(s[0]) {
      TrimStartVisible(s[1..]);
    }
  }

  /** Every non-whitespace character survives, in order, and no other character is added
      except the spaces standing for runs. */
  lemma {:induction false} CollapseKeepsVisible(s: string)
    ensures Visible(Collapse(s)) == Visible(s)
    decreases |s|
  {
    if s != [] {
      if IsSpace(s[0]) {
        var t := TrimStart(s);
        CollapseKeepsVisible(t);
        TrimStartVisible(s);
        assert Collapse(s) == [' '] + Collapse(t);
        assert ([' '] + Collapse(t))[1..] == Collapse(t);
      } else {
        CollapseKeepsVisible(s[1..]);
        assert ([s[0]] + Collapse(s[1..]))[1..] == Collapse(s[1..]);
      }
    }
  }

  /** The collapse starts with whitespace exactly when its input does, and the same holds at
      the end; in particular an empty result comes only from an empty input. */
  lemma {:induction false} CollapseEnds(s: string)
    ensures Collapse(s) == [] <==> s == []
    ensures s != [] ==> (IsSpace(Collapse(s)[0]) <==> IsSpace(s[0]))
    ensures s != [] ==> (IsSpace(Collapse(s)[|Collapse(s)| - 1]) <==> IsSpace(s[|s| - 1]))
    decreases |s|
  {
    if s != [] {
      var r := Collapse(s);
      if IsSpace(s[0]) {
        var t := TrimStart(s);
        TrimStartSpec(s);
        CollapseEnds(t);
        assert r == [' '] + Collapse(t);
        if t == [] {
          assert AllSpace(s[..|s|]);
          assert IsSpace(s[|s| - 1]);
        } else {
          assert t[|t| - 1] == s[|s| - 1];
          assert r[|r| - 1] == Collapse(t)[|Collapse(t)| - 1];
        }
      } else {
        var t := s[1..];
        CollapseEnds(t);
        assert r == [s[0]] + Collapse(t);
        if t != [] {
          assert t[|t| - 1] == s[|s| - 1];
          assert r[|r| - 1] == Collapse(t)[|Collapse(t)| - 1];
        }
      }
    }
  }

  /** A character in front of collapsed text keeps it collapsed, unless it is whitespace other
      than a plain space or whitespace next to whitespace. */
  lemma ConsCollapsed(c: char, t: string)
    requires Collapsed(t)
    requires IsSpace(c) ==> c == ' ' && (t != [] ==> !IsSpace(t[0]))
    ensures Collapsed([c] + t)
  {
    var r := [c] + t;
    forall k | 1 <= k < |r| && IsSpace(r[k]) ensures !IsSpace(r[k - 1]) {
      assert r[k] == t[k - 1];
      if k > 1 { assert r[k - 1] == t[k - 2]; }
    }
  }

  /** The collapse leaves single plain spaces only: no newline, no tab, no two whitespace
      characters side by side. */
  lemma {:induction false} CollapseCollapsed(s: string)
    ensures Collapsed(Collapse(s))
    ensures '\n' !in Collapse(s) && '\t' !in Collapse(s)
    decreases |s|
  {
    if s != [] {
      if IsSpace(s[0]) {
        var t := TrimStart(s);
        TrimStartSpec(s);
        CollapseCollapsed(t);
        CollapseEnds(t);
        ConsCollapsed(' ', Collapse(t));
      } else {
        CollapseCollapsed(s[1..]);
        ConsCollapsed(s[0], Collapse(s[1..]));
      }
      assert IsSpace('\n') && IsSpace('\t');
    }
  }

  lemma CollapsedTail(s: string)
    requires s != [] && Collapsed(s)
    ensures Collapsed(s[1..])
  {
    var t := s[1..];
    forall k | 1 <= k < |t| && IsSpace(t[k]) ensures !IsSpace(t[k - 1]) {
      assert t[k] == s[k + 1] && t[k - 1] == s[k];
    }
  }

  /** A first character that is not whitespace, or a plain space standing alone, is kept. */
  lemma CollapseCons(s: string)
    requires s != [] && Collapsed(s)
    ensures Collapse(s) == [s[0]] + Collapse(s[1..])
  {
    if IsSpace(s[0]) {
      assert s[0] == ' ';
      if |s| > 1 {
        assert !IsSpace(s[1]);
        assert TrimStart(s[1..]) == s[1..];
      }
      assert TrimStart(s) == TrimStart(s[1..]);
    }
  }

  /** Text that is already collapsed is left as it is. */
  lemma {:induction false} CollapsedFixed(s: string)
    requires Collapsed(s)
    ensures Collapse(s) == s
    decreases |s|
  {
    if s != [] {
      CollapsedTail(s);
      CollapsedFixed(s[1..]);
      CollapseCons(s);
      assert s == [s[0]] + s[1..];
    }
  }

  /** The collapse changes nothing exactly on collapsed text, and so is idempotent. */
  lemma CollapseFixedPoint(s: string)
    ensures Collapse(s) == s <==> Collapsed(s)
    ensures Collapse(Collapse(s)) == Collapse(s)
  {
    CollapseCollapsed(s);
    if Collapsed(s) {
      CollapsedFixed(s);
    }
    CollapsedFixed(Collapse(s));
  }

  /** The cleaned text of an HTML document is collapsed and trimmed. */
  lemma CleanHtmlShape(document: seq<Node>)
    ensures var r := CleanHtmlText(document);
            Collapsed(r) && (r != [] ==> !IsSpace(r[0]) && !IsSpace(r[|r| - 1]))
  {
    var s := GetText(RemoveHidden(document));
    GetTextTrimmed(RemoveHidden(document));
    CollapseCollapsed(s);
    CollapseEnds(s);
  }

  /** Content without either marker passes through verbatim. */
  lemma PassThrough(content: string, parse: string -> seq<Node>)
    requires !IsHtmlText(content)
    ensures CleanText(content, parse) == content
  {
  }
}
