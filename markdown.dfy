/**
 * `markdown_to_html` of the blog builder: three header substitutions, the inline
 * rewrites, a list pass over lines with an `in_list` flag, a paragraph pass with a
 * `current` buffer, and the `---` to `<hr>` replacement.
 *
 * The header regexes `^### (.+)$`, `^## (.+)$`, `^# (.+)$` run in MULTILINE mode and
 * `.` does not match a newline, so each of them rewrites one line at a time.
 * The bold, italic and link rewrites are likewise confined to a line; they are
 * the parameter `inline`, applied to every line.
 */
module Markdown {
  import opened Text

  /** Applies `f` to every line. */
  function MapLines(f: string -> string, lines: seq<string>): (r: seq<string>)
    ensures |r| == |lines|
    ensures forall i :: 0 <= i < |lines| ==> r[i] == f(lines[i])
  {
    seq(|lines|, i requires 0 <= i < |lines| => f(lines[i]))
  }

  /** A regex substitution confined to single lines, applied to a whole text. */
  function PerLine(f: string -> string, text: string): string {
    JoinWith(MapLines(f, SplitOn(text, '\n')), "\n")
  }

  /** One header rule: a line `marker` followed by at least one character becomes `<tag>rest</tag>`. */
  function Heading(line: string, marker: string, tag: string): string {
    if StartsWith(line, marker) && |line| > |marker| then "<" + tag + ">" + line[|marker|..] + "</" + tag + ">"
    else line
  }

  function H3(line: string): string { Heading(line, "### ", "h3") }
  function H2(line: string): string { Heading(line, "## ", "h2") }
  function H1(line: string): string { Heading(line, "# ", "h1") }

  /** The three header substitutions, in the order the script runs them. */
  function HeaderPasses(text: string): string {
    PerLine(H1, PerLine(H2, PerLine(H3, text)))
  }

  /** What the header passes do to one line. */
  function Headers(line: string): string {
    H1(H2(H3(line)))
  }

  /** The header rules decide by the longest marker first, and a line with none is untouched. */
  lemma HeadersCases(line: string)
    ensures StartsWith(line, "### ") && |line| > 4 ==> Headers(line) == "<h3>" + line[4..] + "</h3>"
    ensures !(StartsWith(line, "### ") && |line| > 4) && StartsWith(line, "## ") && |line| > 3
            ==> Headers(line) == "<h2>" + line[3..] + "</h2>"
    ensures !(StartsWith(line, "### ") && |line| > 4) && !(StartsWith(line, "## ") && |line| > 3)
            && StartsWith(line, "# ") && |line| > 2
            ==> Headers(line) == "<h1>" + line[2..] + "</h1>"
    ensures !(StartsWith(line, "### ") && |line| > 4) && !(StartsWith(line, "## ") && |line| > 3)
            && !(StartsWith(line, "# ") && |line| > 2)
            ==> Headers(line) == line
  {
    var a := H3(line);
    var b := H2(a);
    if a != line {
      assert a[0] == '<';
      assert !StartsWith(a, "## ") by { assert a[..3][0] == '<'; }
      assert !StartsWith(a, "# ") by { assert a[..2][0] == '<'; }
    } else if b != a {
      assert b[0] == '<';
      assert !StartsWith(b, "# ") by { assert b[..2][0] == '<'; }
    }
  }

  /** A header rule never puts a newline into a line that had none. */
  lemma HeadingNoNewline(line: string, marker: string, tag: string)
    requires '\n' !in line && '\n' !in marker && '\n' !in tag
    ensures '\n' !in Heading(line, marker, tag)
  {
    if StartsWith(line, marker) && |line| > |marker| {
      assert forall c :: c in line[|marker|..] ==> c in line;
    }
  }

  lemma PerLineHeading(lines: seq<string>, marker: string, tag: string)
    requires forall i :: 0 <= i < |lines| ==> '\n' !in lines[i]
    requires '\n' !in marker && '\n' !in tag
    ensures forall i :: 0 <= i < |lines| ==> '\n' !in Heading(lines[i], marker, tag)
  {
    forall i | 0 <= i < |lines| ensures '\n' !in Heading(lines[i], marker, tag) {
      HeadingNoNewline(lines[i], marker, tag);
    }
  }

  /** Running the three whole-text substitutions is the same as rewriting each line with `Headers`. */
  lemma HeaderPassesPerLine(text: string)
    ensures HeaderPasses(text) == PerLine(Headers, text)
  {
    var l0 := SplitOn(text, '\n');
    var l1 := MapLines(H3, l0);
    PerLineHeading(l0, "### ", "h3");
    SplitOnJoin(l1, '\n');
    var l2 := MapLines(H2, l1);
    PerLineHeading(l1, "## ", "h2");
    SplitOnJoin(l2, '\n');
    var l3 := MapLines(H1, l2);
    assert l3 == MapLines(Headers, l0);
  }

  // ---- The list pass ----

  predicate IsItem(line: string) {
    StartsWith(line, "- ")
  }

  /** `f"<li>{line[2:]}</li>"`; Python's `line[2:]` is empty for a shorter line. */
  function Li(line: string): string {
    "<li>" + (if |line| < 2 then "" else line[2..]) + "</li>"
  }

  /** A maximal run of `- ` lines, or a line that is not an item. */
  datatype Block = ListBlock(items: seq<string>) | Plain(line: string)

  predicate WellFormed(b: Block) {
    match b
    case ListBlock(items) => items != [] && forall i :: 0 <= i < |items| ==> IsItem(items[i])
    case Plain(line) => !IsItem(line)
  }

  /** The lines a block stands for. */
  function BlockLines(b: Block): seq<string> {
    match b
    case ListBlock(items) => items
    case Plain(line) => [line]
  }

  function AllBlockLines(bs: seq<Block>): seq<string>
    decreases |bs|
  {
    if bs == [] then [] else BlockLines(bs[0]) + AllBlockLines(bs[1..])
  }

  /** The number of `- ` lines at the front of `lines`. */
  function ItemRun(lines: seq<string>): (k: nat)
    ensures k <= |lines|
    ensures forall i :: 0 <= i < k ==> IsItem(lines[i])
    ensures k == |lines| || !IsItem(lines[k])
    decreases |lines|
  {
    if lines != [] && IsItem(lines[0]) then 1 + ItemRun(lines[1..]) else 0
  }

  /** The lines grouped into maximal item runs and single other lines, in order. */
  function Blocks(lines: seq<string>): seq<Block>
    decreases |lines|
  {
    if lines == [] then []
    else if !IsItem(lines[0]) then [Plain(lines[0])] + Blocks(lines[1..])
    else var k := ItemRun(lines); [ListBlock(lines[..k])] + Blocks(lines[k..])
  }

  /**
   * Every block is well formed, no two list blocks are adjacent, the first block is
   * a list exactly when the first line is an item, and the blocks together are
   * exactly the input lines.
   */
  lemma BlocksProperties(lines: seq<string>)
    ensures forall i :: 0 <= i < |Blocks(lines)| ==> WellFormed(Blocks(lines)[i])
    ensures forall i :: 0 <= i < |Blocks(lines)| - 1 ==>
      !(Blocks(lines)[i].ListBlock? && Blocks(lines)[i + 1].ListBlock?)
    ensures lines != [] ==> Blocks(lines) != [] && (Blocks(lines)[0].ListBlock? <==> IsItem(lines[0]))
    ensures AllBlockLines(Blocks(lines)) == lines
  {
    BlocksWellFormed(lines);
    BlocksNoAdjacentLists(lines);
    if lines != [] {
      BlocksFront(lines);
    }
    BlocksLines(lines);
  }

  lemma {:induction false} BlocksWellFormed(lines: seq<string>)
    ensures forall i :: 0 <= i < |Blocks(lines)| ==> WellFormed(Blocks(lines)[i])
    decreases |lines|
  {
    if lines != [] {
      var n := FirstBlockLength(lines);
      BlocksWellFormed(lines[n..]);
      BlocksFront(lines);
      var r := Blocks(lines);
      var rest := Blocks(lines[n..]);
      forall i | 0 <= i < |r| ensures WellFormed(r[i]) {
        if i > 0 {
          assert r[i] == rest[i - 1];
        }
      }
    }
  }

  lemma {:induction false} BlocksNoAdjacentLists(lines: seq<string>)
    ensures forall i :: 0 <= i < |Blocks(lines)| - 1 ==>
      !(Blocks(lines)[i].ListBlock? && Blocks(lines)[i + 1].ListBlock?)
    decreases |lines|
  {
    if lines != [] {
      var n := FirstBlockLength(lines);
      BlocksNoAdjacentLists(lines[n..]);
      BlocksFront(lines);
      var r := Blocks(lines);
      var rest := Blocks(lines[n..]);
      forall i | 0 <= i < |r| - 1 ensures !(r[i].ListBlock? && r[i + 1].ListBlock?) {
        if i == 0 {
          assert n < |lines|;
          BlocksFront(lines[n..]);
          assert lines[n..][0] == lines[n];
          assert r[1] == rest[0];
        } else {
          assert r[i] == rest[i - 1] && r[i + 1] == rest[i];
        }
      }
    }
  }

  lemma {:induction false} BlocksLines(lines: seq<string>)
    ensures AllBlockLines(Blocks(lines)) == lines
    decreases |lines|
  {
    if lines != [] {
      var n := FirstBlockLength(lines);
      BlocksLines(lines[n..]);
      BlocksFront(lines);
      var r := Blocks(lines);
      assert r[1..] == Blocks(lines[n..]);
      assert lines == lines[..n] + lines[n..];
    }
  }

  /** How many lines the first block takes. */
  function FirstBlockLength(lines: seq<string>): (n: nat)
    requires lines != []
    ensures 1 <= n <= |lines|
  {
    if IsItem(lines[0]) then ItemRun(lines) else 1
  }

  /** The first block: a well-formed block of the first `n` lines, followed by no second list when a list. */
  lemma BlocksFront(lines: seq<string>)
    requires lines != []
    ensures var n := FirstBlockLength(lines);
      Blocks(lines) == [Blocks(lines)[0]] + Blocks(lines[n..])
      && WellFormed(Blocks(lines)[0]) && BlockLines(Blocks(lines)[0]) == lines[..n]
      && (Blocks(lines)[0].ListBlock? <==> IsItem(lines[0]))
      && (Blocks(lines)[0].ListBlock? && n < |lines| ==> !IsItem(lines[n]))
  {
    if IsItem(lines[0]) {
      ListBlockFront(lines);
    } else {
      BlocksPlainFront(lines);
      assert lines[..1] == [lines[0]];
    }
  }

  lemma ListBlockFront(lines: seq<string>)
    requires lines != [] && IsItem(lines[0])
    ensures var k := ItemRun(lines);
      Blocks(lines) == [ListBlock(lines[..k])] + Blocks(lines[k..])
      && WellFormed(ListBlock(lines[..k])) && (k < |lines| ==> !IsItem(lines[k]))
  {
    var k := ItemRun(lines);
    BlocksListFront(lines);
    assert lines[..k] != [] by {
      assert lines[..k][0] == lines[0];
    }
    forall i | 0 <= i < k ensures IsItem(lines[..k][i]) {
      assert lines[..k][i] == lines[i];
    }
  }

  /** A list block becomes `<ul>`, one `<li>` per item, `</ul>`; any other line passes through. */
  function RenderBlock(b: Block): seq<string> {
    match b
    case ListBlock(items) => ["<ul>"] + Lis(items) + ["</ul>"]
    case Plain(line) => [line]
  }

  /** One `<li>` per item. */
  function Lis(items: seq<string>): seq<string>
    decreases |items|
  {
    if items == [] then [] else [Li(items[0])] + Lis(items[1..])
  }

  function RenderBlocks(bs: seq<Block>): seq<string>
    decreases |bs|
  {
    if bs == [] then [] else RenderBlock(bs[0]) + RenderBlocks(bs[1..])
  }

  /** The list pass as a whole. */
  function ListHtml(lines: seq<string>): seq<string> {
    RenderBlocks(Blocks(lines))
  }

  /** What the loop still emits from `lines` on, with the `in_list` flag `open`. */
  ghost function ListFrom(lines: seq<string>, open: bool): seq<string>
    decreases |lines|
  {
    if lines == [] then (if open then ["</ul>"] else [])
    else if IsItem(lines[0]) then (if open then [] else ["<ul>"]) + [Li(lines[0])] + ListFrom(lines[1..], true)
    else (if open then ["</ul>"] else []) + [lines[0]] + ListFrom(lines[1..], false)
  }

  lemma {:induction false} ListFromOpen(lines: seq<string>)
    ensures var k := ItemRun(lines);
      ListFrom(lines, true) == Lis(lines[..k]) + ["</ul>"] + ListFrom(lines[k..], false)
    decreases |lines|
  {
    var k := ItemRun(lines);
    if lines != [] && IsItem(lines[0]) {
      ListFromOpen(lines[1..]);
      assert lines[1..][k - 1..] == lines[k..];
      assert lines[..k][1..] == lines[1..][..k - 1];
    } else {
      assert lines[..k] == [];
      if lines != [] {
        assert lines[k..] == lines;
      }
    }
  }

  lemma {:induction false} ListFromBlocks(lines: seq<string>)
    ensures ListFrom(lines, false) == ListHtml(lines)
    decreases |lines|
  {
    if lines != [] {
      if IsItem(lines[0]) {
        ListFromBlocks(lines[ItemRun(lines)..]);
        ListFromItemRun(lines);
      } else {
        ListFromBlocks(lines[1..]);
        ListFromPlain(lines);
      }
    }
  }

  /** One step of `ListFromBlocks`: a run of items at the front. */
  lemma ListFromItemRun(lines: seq<string>)
    requires lines != [] && IsItem(lines[0])
    requires ListFrom(lines[ItemRun(lines)..], false) == ListHtml(lines[ItemRun(lines)..])
    ensures ListFrom(lines, false) == ListHtml(lines)
  {
    var k := ItemRun(lines);
    ItemRunFront(lines);
    var x := lines[1..][..k - 1];
    ListFromItemRunPass(lines);
    ListHtmlItemRun(lines);
    Regroup4(["<ul>"], [Li(lines[0])], Lis(x), ["</ul>"], ListHtml(lines[k..]));
  }

  /** What the pass emits for a run of items at the front. */
  lemma ListFromItemRunPass(lines: seq<string>)
    requires lines != [] && IsItem(lines[0])
    requires ListFrom(lines[ItemRun(lines)..], false) == ListHtml(lines[ItemRun(lines)..])
    ensures ItemRun(lines) == 1 + ItemRun(lines[1..])
    ensures ListFrom(lines, false) == ["<ul>"] + [Li(lines[0])]
      + (Lis(lines[1..][..ItemRun(lines) - 1]) + ["</ul>"] + ListHtml(lines[ItemRun(lines)..]))
  {
    var k := ItemRun(lines);
    ItemRunFront(lines);
    ListFromOpen(lines[1..]);
    assert lines[1..][k - 1..] == lines[k..];
  }

  /** What the block rendering produces for a run of items at the front. */
  lemma ListHtmlItemRun(lines: seq<string>)
    requires lines != [] && IsItem(lines[0])
    ensures ItemRun(lines) == 1 + ItemRun(lines[1..])
    ensures ListHtml(lines) == ["<ul>"] + ([Li(lines[0])] + Lis(lines[1..][..ItemRun(lines) - 1]))
      + ["</ul>"] + ListHtml(lines[ItemRun(lines)..])
  {
    var k := ItemRun(lines);
    ItemRunFront(lines);
    LisFront(lines[..k]);
    assert lines[..k][1..] == lines[1..][..k - 1];
    BlocksListFront(lines);
    RenderBlocksFront(Blocks(lines));
  }

  lemma Regroup4<T>(u: seq<T>, l: seq<T>, a: seq<T>, b: seq<T>, r: seq<T>)
    ensures u + l + (a + b + r) == u + (l + a) + b + r
  {
    ConcatAssoc(u, l, a);
    ConcatAssoc(u + l, a, b);
    ConcatAssoc(u + l, a + b, r);
  }

  lemma ItemRunFront(lines: seq<string>)
    requires lines != [] && IsItem(lines[0])
    ensures ItemRun(lines) == 1 + ItemRun(lines[1..])
  {
  }

  /** One step of `ListFromBlocks`: a line that is not an item at the front. */
  lemma ListFromPlain(lines: seq<string>)
    requires lines != [] && !IsItem(lines[0])
    requires ListFrom(lines[1..], false) == ListHtml(lines[1..])
    ensures ListFrom(lines, false) == ListHtml(lines)
  {
    BlocksPlainFront(lines);
    RenderBlocksFront(Blocks(lines));
  }

  lemma LisFront(items: seq<string>)
    requires items != []
    ensures Lis(items) == [Li(items[0])] + Lis(items[1..])
  {
  }

  lemma RenderBlocksFront(bs: seq<Block>)
    requires bs != []
    ensures RenderBlocks(bs) == RenderBlock(bs[0]) + RenderBlocks(bs[1..])
  {
  }

  /** What the loop emits for one line, given the `in_list` flag before it. */
  lemma ListFromStep(rest: seq<string>, open: bool)
    requires rest != []
    ensures ListFrom(rest, open)
      == (if IsItem(rest[0]) then (if open then [] else ["<ul>"]) + [Li(rest[0])]
          else (if open then ["</ul>"] else []) + [rest[0]])
         + ListFrom(rest[1..], IsItem(rest[0]))
  {
  }

  /** The list loop: `<ul>` on entering a run of items, `</ul>` on leaving it or at the end. */
  method ListPass(lines: seq<string>) returns (result: seq<string>)
    ensures result == ListHtml(lines)
  {
    result := [];
    var inList := false;
    var i := 0;
    while i < |lines|
      invariant 0 <= i <= |lines|
      invariant result + ListFrom(lines[i..], inList) == ListFrom(lines, false)
    {
      var line := lines[i];
      ghost var before := result;
      ghost var wasOpen := inList;
      ghost var emit: seq<string>;
      ListFromStep(lines[i..], inList);
      assert lines[i..][0] == line;
      assert lines[i..][1..] == lines[i + 1..];
      if StartsWith(line, "- ") {
        emit := (if inList then [] else ["<ul>"]) + [Li(line)];
        if !inList {
          result := result + ["<ul>"];
          inList := true;
        }
        result := result + ["<li>" + line[2..] + "</li>"];
      } else {
        emit := (if inList then ["</ul>"] else []) + [line];
        if inList {
          result := result + ["</ul>"];
          inList := false;
        }
        result := result + [line];
      }
      assert result == before + emit;
      assert ListFrom(lines[i..], wasOpen) == emit + ListFrom(lines[i + 1..], inList);
      ConcatAssoc(before, emit, ListFrom(lines[i + 1..], inList));
      i := i + 1;
    }
    if inList {
      result := result + ["</ul>"];
    }
    assert lines[i..] == [];
    ListFromBlocks(lines);
  }

  /** A run of items on its own is one list. */
  lemma BlocksOfItems(lines: seq<string>)
    requires lines != [] && forall i :: 0 <= i < |lines| ==> IsItem(lines[i])
    ensures Blocks(lines) == [ListBlock(lines)]
  {
    ItemRunAll(lines);
    BlocksListFront(lines);
    assert lines[..|lines|] == lines;
    assert lines[|lines|..] == [];
  }

  lemma {:induction false} ItemRunAll(lines: seq<string>)
    requires forall i :: 0 <= i < |lines| ==> IsItem(lines[i])
    ensures ItemRun(lines) == |lines|
    decreases |lines|
  {
    if lines != [] {
      assert IsItem(lines[0]);
      assert forall i :: 0 <= i < |lines[1..]| ==> lines[1..][i] == lines[i + 1];
      ItemRunAll(lines[1..]);
    }
  }

  /** A line that is not an item separates the lists before it from the lists after it. */
  lemma {:induction false} BlocksSplitAtPlain(a: seq<string>, p: string, c: seq<string>)
    requires !IsItem(p)
    ensures Blocks(a + [p] + c) == Blocks(a) + [Plain(p)] + Blocks(c)
    decreases |a|
  {
    var s := a + [p] + c;
    if a == [] {
      assert s == [p] + c;
      BlocksPlainFront(s);
    } else if !IsItem(a[0]) {
      BlocksSplitAtPlain(a[1..], p, c);
      SplitAtPlainPlainStep(a, p, c);
    } else {
      BlocksSplitAtPlain(a[ItemRun(a)..], p, c);
      SplitAtPlainItemStep(a, p, c);
    }
  }

  lemma SplitAtPlainPlainStep(a: seq<string>, p: string, c: seq<string>)
    requires !IsItem(p) && a != [] && !IsItem(a[0])
    requires Blocks(a[1..] + [p] + c) == Blocks(a[1..]) + [Plain(p)] + Blocks(c)
    ensures Blocks(a + [p] + c) == Blocks(a) + [Plain(p)] + Blocks(c)
  {
    BlocksPlainFrontOfPrefix(a, p, c);
    BlocksPlainFront(a);
    ConcatAssoc([Plain(a[0])], Blocks(a[1..]), [Plain(p)]);
    Regroup(Blocks(a + [p] + c), Blocks(a) + [Plain(p)], Blocks(c), Plain(a[0]),
      Blocks(a[1..] + [p] + c), Blocks(a[1..]) + [Plain(p)]);
  }

  lemma BlocksPlainFrontOfPrefix(a: seq<string>, p: string, c: seq<string>)
    requires a != [] && !IsItem(a[0])
    ensures Blocks(a + [p] + c) == [Plain(a[0])] + Blocks(a[1..] + [p] + c)
  {
    var s := a + [p] + c;
    assert s[0] == a[0] && s[1..] == a[1..] + [p] + c;
    BlocksPlainFront(s);
  }

  lemma SplitAtPlainItemStep(a: seq<string>, p: string, c: seq<string>)
    requires !IsItem(p) && a != [] && IsItem(a[0])
    requires Blocks(a[ItemRun(a)..] + [p] + c) == Blocks(a[ItemRun(a)..]) + [Plain(p)] + Blocks(c)
    ensures Blocks(a + [p] + c) == Blocks(a) + [Plain(p)] + Blocks(c)
  {
    var j := ItemRun(a);
    var h := ListBlock(a[..j]);
    BlocksListFrontOfPrefix(a, p, c);
    BlocksListFront(a);
    ConcatAssoc([h], Blocks(a[j..]), [Plain(p)]);
    Regroup(Blocks(a + [p] + c), Blocks(a) + [Plain(p)], Blocks(c), h,
      Blocks(a[j..] + [p] + c), Blocks(a[j..]) + [Plain(p)]);
  }

  /** Before a line that is not an item, the first list of `a + [p] + c` is the first list of `a`. */
  lemma BlocksListFrontOfPrefix(a: seq<string>, p: string, c: seq<string>)
    requires !IsItem(p) && a != [] && IsItem(a[0])
    ensures Blocks(a + [p] + c) == [ListBlock(a[..ItemRun(a)])] + Blocks(a[ItemRun(a)..] + [p] + c)
  {
    var s := a + [p] + c;
    var j := ItemRun(a);
    assert ItemRun(s) == j && s[..j] == a[..j] && s[j..] == a[j..] + [p] + c && IsItem(s[0]) by {
      ItemRunPrefix(a, [p] + c);
      assert s == a + ([p] + c);
    }
    BlocksListFront(s);
  }

  lemma BlocksPlainFront(s: seq<string>)
    requires s != [] && !IsItem(s[0])
    ensures Blocks(s) == [Plain(s[0])] + Blocks(s[1..])
  {
  }

  lemma BlocksListFront(s: seq<string>)
    requires s != [] && IsItem(s[0])
    ensures Blocks(s) == [ListBlock(s[..ItemRun(s)])] + Blocks(s[ItemRun(s)..])
  {
  }

  lemma {:induction false} ItemRunPrefix(a: seq<string>, t: seq<string>)
    requires t != [] && !IsItem(t[0])
    ensures ItemRun(a + t) == ItemRun(a)
    decreases |a|
  {
    if a != [] {
      assert (a + t)[1..] == a[1..] + t;
      ItemRunPrefix(a[1..], t);
    } else {
      assert a + t == t;
    }
  }

  // ---- The paragraph pass ----

  /** A line counts as blank when `line.strip()` is empty, that is, when it is all whitespace. */
  predicate Blank(line: string) {
    AllSpace(line)
  }

  /** `" ".join(run)`, wrapped in `<p>…</p>` unless it already starts with `<`. */
  function RenderRun(run: seq<string>): string {
    var para := JoinWith(run, " ");
    if StartsWith(para, "<") then para else "<p>" + para + "</p>"
  }

  /** The number of non-blank lines at the front of `lines`. */
  function TextRun(lines: seq<string>): (k: nat)
    ensures k <= |lines|
    ensures forall i :: 0 <= i < k ==> !Blank(lines[i])
    ensures k == |lines| || Blank(lines[k])
    decreases |lines|
  {
    if lines != [] && !Blank(lines[0]) then 1 + TextRun(lines[1..]) else 0
  }

  /** The lines that are not blank, in order. */
  function NonBlank(lines: seq<string>): seq<string>
    decreases |lines|
  {
    if lines == [] then [] else (if Blank(lines[0]) then [] else [lines[0]]) + NonBlank(lines[1..])
  }

  /** A paragraph's lines: at least one, none blank. */
  predicate IsRun(run: seq<string>) {
    run != [] && forall j :: 0 <= j < |run| ==> !Blank(run[j])
  }

  /** The maximal runs of non-blank lines, in order. */
  function Runs(lines: seq<string>): seq<seq<string>>
    decreases |lines|
  {
    if lines == [] then []
    else if Blank(lines[0]) then Runs(lines[1..])
    else var k := TextRun(lines); [lines[..k]] + Runs(lines[k..])
  }

  /** Each run is non-empty and holds no blank line; the runs together are the non-blank lines in order. */
  lemma {:induction false} RunsProperties(lines: seq<string>)
    ensures forall i :: 0 <= i < |Runs(lines)| ==> IsRun(Runs(lines)[i])
    ensures Flatten(Runs(lines)) == NonBlank(lines)
    decreases |lines|
  {
    if lines != [] {
      if Blank(lines[0]) {
        RunsBlankFront(lines);
        RunsProperties(lines[1..]);
        assert NonBlank(lines) == NonBlank(lines[1..]);
      } else {
        var k := TextRun(lines);
        var r := Runs(lines);
        var rest := Runs(lines[k..]);
        RunsTextFront(lines);
        RunsProperties(lines[k..]);
        NonBlankRun(lines, k);
        assert r[1..] == rest;
        assert IsRun(r[0]);
        assert Flatten(r) == lines[..k] + Flatten(rest);
        forall i | 1 <= i < |r| ensures r[i] == rest[i - 1] {
        }
      }
    }
  }

  lemma {:induction false} NonBlankRun(lines: seq<string>, k: nat)
    requires k <= |lines| && forall i :: 0 <= i < k ==> !Blank(lines[i])
    ensures NonBlank(lines) == lines[..k] + NonBlank(lines[k..])
    decreases k
  {
    if k > 0 {
      NonBlankRun(lines[1..], k - 1);
      assert lines[1..][k - 1..] == lines[k..];
      assert lines[..k] == [lines[0]] + lines[1..][..k - 1];
    }
  }

  function RenderRuns(runs: seq<seq<string>>): seq<string>
    decreases |runs|
  {
    if runs == [] then [] else [RenderRun(runs[0])] + RenderRuns(runs[1..])
  }

  /** The paragraph pass as a whole. */
  function ParagraphHtml(lines: seq<string>): seq<string> {
    RenderRuns(Runs(lines))
  }

  /** What the loop still emits from `lines` on, with `current` buffered. */
  ghost function ParaFrom(lines: seq<string>, current: seq<string>): seq<string>
    decreases |lines|
  {
    if lines == [] then (if current == [] then [] else [RenderRun(current)])
    else if !Blank(lines[0]) then ParaFrom(lines[1..], current + [lines[0]])
    else (if current == [] then [] else [RenderRun(current)]) + ParaFrom(lines[1..], [])
  }

  lemma ParaFromFront(lines: seq<string>, current: seq<string>)
    requires lines != []
    ensures ParaFrom(lines, current)
      == if !Blank(lines[0]) then ParaFrom(lines[1..], current + [lines[0]])
         else (if current == [] then [] else [RenderRun(current)]) + ParaFrom(lines[1..], [])
  {
  }

  lemma TextRunFront(lines: seq<string>)
    requires lines != [] && !Blank(lines[0])
    ensures TextRun(lines) == 1 + TextRun(lines[1..])
  {
  }

  lemma {:induction false} ParaFromRun(lines: seq<string>, current: seq<string>)
    ensures var k := TextRun(lines);
      ParaFrom(lines, current)
      == (if current + lines[..k] == [] then [] else [RenderRun(current + lines[..k])])
         + (if k == |lines| then [] else ParaFrom(lines[k + 1..], []))
    decreases |lines|
  {
    var k := TextRun(lines);
    if lines == [] {
      assert current + lines[..k] == current;
    } else if !Blank(lines[0]) {
      var next := current + [lines[0]];
      ParaFromRun(lines[1..], next);
      assert ParaFrom(lines, current) == ParaFrom(lines[1..], next) by {
        ParaFromFront(lines, current);
      }
      assert TextRun(lines[1..]) == k - 1 by {
        TextRunFront(lines);
      }
      assert next + lines[1..][..k - 1] == current + lines[..k];
      assert lines[1..][k - 1..] == lines[k..];
      if k < |lines| {
        assert lines[1..][k - 1 + 1..] == lines[k + 1..];
      }
    } else {
      ParaFromFront(lines, current);
      assert k == 0;
      assert current + lines[..k] == current;
    }
  }

  lemma {:induction false} ParaFromRuns(lines: seq<string>)
    ensures ParaFrom(lines, []) == ParagraphHtml(lines)
    decreases |lines|
  {
    if lines != [] {
      if Blank(lines[0]) {
        ParaFromRuns(lines[1..]);
      } else {
        var k := TextRun(lines);
        ParaFromRun(lines, []);
        assert [] + lines[..k] == lines[..k];
        var rest := lines[k..];
        var tail := if k == |lines| then [] else ParaFrom(lines[k + 1..], []);
        assert ParaFrom(lines, []) == [RenderRun(lines[..k])] + tail;
        if k < |lines| {
          ParaFromRuns(lines[k + 1..]);
          assert rest[1..] == lines[k + 1..];
          assert Runs(rest) == Runs(lines[k + 1..]);
        } else {
          assert rest == [];
        }
        assert tail == RenderRuns(Runs(rest));
        var rs := Runs(lines);
        assert rs == [lines[..k]] + Runs(rest);
        assert rs[1..] == Runs(rest);
      }
    }
  }

  /** The paragraph loop over the lines, with the `current` buffer. */
  method ParagraphPass(lines: seq<string>) returns (paragraphs: seq<string>)
    ensures paragraphs == ParagraphHtml(lines)
  {
    paragraphs := [];
    var current: seq<string> := [];
    var i := 0;
    while i < |lines|
      invariant 0 <= i <= |lines|
      invariant paragraphs + ParaFrom(lines[i..], current) == ParaFrom(lines, [])
    {
      var line := lines[i];
      assert lines[i..][1..] == lines[i + 1..];
      StripProperties(line);
      if Strip(line) != [] {
        current := current + [line];
      } else {
        if current != [] {
          var para := JoinWith(current, " ");
          if !StartsWith(para, "<") {
            para := "<p>" + para + "</p>";
          }
          paragraphs := paragraphs + [para];
          current := [];
        }
      }
      i := i + 1;
    }
    if current != [] {
      var para := JoinWith(current, " ");
      if !StartsWith(para, "<") {
        para := "<p>" + para + "</p>";
      }
      paragraphs := paragraphs + [para];
    }
    assert lines[i..] == [];
    ParaFromRuns(lines);
  }

  /** Non-blank lines with no blank line between them form one paragraph. */
  lemma {:induction false} RunsOfNonBlank(lines: seq<string>)
    requires lines != [] && forall i :: 0 <= i < |lines| ==> !Blank(lines[i])
    ensures Runs(lines) == [lines]
  {
    var k := TextRun(lines);
    assert !Blank(lines[0]);
    assert k == |lines|;
    assert lines[..k] == lines;
    assert lines[k..] == [];
    assert Runs(lines[k..]) == [];
  }

  /** A blank line splits the paragraphs before it from those after it. */
  lemma {:induction false} RunsSplitAtBlank(a: seq<string>, b: string, c: seq<string>)
    requires Blank(b)
    ensures Runs(a + [b] + c) == Runs(a) + Runs(c)
    decreases |a|
  {
    var s := a + [b] + c;
    if a == [] {
      assert s == [b] + c;
      RunsBlankFront(s);
    } else if Blank(a[0]) {
      RunsSplitAtBlank(a[1..], b, c);
      SplitAtBlankBlankStep(a, b, c);
    } else {
      RunsSplitAtBlank(a[TextRun(a)..], b, c);
      SplitAtBlankTextStep(a, b, c);
    }
  }

  lemma SplitAtBlankBlankStep(a: seq<string>, b: string, c: seq<string>)
    requires Blank(b) && a != [] && Blank(a[0])
    requires Runs(a[1..] + [b] + c) == Runs(a[1..]) + Runs(c)
    ensures Runs(a + [b] + c) == Runs(a) + Runs(c)
  {
    var s := a + [b] + c;
    assert s[0] == a[0];
    assert s[1..] == a[1..] + [b] + c;
    RunsBlankFront(s);
    RunsBlankFront(a);
  }

  lemma SplitAtBlankTextStep(a: seq<string>, b: string, c: seq<string>)
    requires Blank(b) && a != [] && !Blank(a[0])
    requires Runs(a[TextRun(a)..] + [b] + c) == Runs(a[TextRun(a)..]) + Runs(c)
    ensures Runs(a + [b] + c) == Runs(a) + Runs(c)
  {
    var j := TextRun(a);
    RunsTextFrontOfPrefix(a, b, c);
    RunsTextFront(a);
    Regroup(Runs(a + [b] + c), Runs(a), Runs(c), a[..j], Runs(a[j..] + [b] + c), Runs(a[j..]));
  }

  /** Before a blank line, the first run of `a + [b] + c` is the first run of `a`. */
  lemma RunsTextFrontOfPrefix(a: seq<string>, b: string, c: seq<string>)
    requires Blank(b) && a != [] && !Blank(a[0])
    ensures Runs(a + [b] + c) == [a[..TextRun(a)]] + Runs(a[TextRun(a)..] + [b] + c)
  {
    var s := a + [b] + c;
    var j := TextRun(a);
    assert TextRun(s) == j && s[..j] == a[..j] && s[j..] == a[j..] + [b] + c && !Blank(s[0]) by {
      TextRunPrefix(a, [b] + c);
      assert s == a + ([b] + c);
    }
    RunsTextFront(s);
  }

  /** `[h] + (m + z) == ([h] + m) + z`, for sequences given by name. */
  lemma Regroup<T>(whole: seq<T>, front: seq<T>, back: seq<T>, h: T, tail: seq<T>, mid: seq<T>)
    requires whole == [h] + tail && tail == mid + back && front == [h] + mid
    ensures whole == front + back
  {
  }

  lemma RunsBlankFront(s: seq<string>)
    requires s != [] && Blank(s[0])
    ensures Runs(s) == Runs(s[1..])
  {
  }

  lemma RunsTextFront(s: seq<string>)
    requires s != [] && !Blank(s[0])
    ensures Runs(s) == [s[..TextRun(s)]] + Runs(s[TextRun(s)..])
  {
  }

  lemma {:induction false} TextRunPrefix(a: seq<string>, t: seq<string>)
    requires t != [] && Blank(t[0])
    ensures TextRun(a + t) == TextRun(a)
    decreases |a|
  {
    if a != [] {
      assert (a + t)[1..] == a[1..] + t;
      TextRunPrefix(a[1..], t);
    } else {
      assert a + t == t;
    }
  }

  // ---- The whole conversion ----

  /** `markdown_to_html(text)`, with the bold, italic and link rewrites as `inline`. */
  function Html(text: string, inline: string -> string): string {
    var lines := SplitOn(PerLine(inline, HeaderPasses(text)), '\n');
    var listed := ListHtml(lines);
    Replace(JoinWith(ParagraphHtml(listed), "\n"), "---", "<hr>")
  }

  /**
   * What the `---` to `<hr>` pass promises about `s`: no `---` is left, and an output
   * starting with one or two dashes comes from an input starting with them that does not
   * start with `---`.
   */
  predicate HrFacts(s: string) {
    var r := Replace(s, "---", "<hr>");
    !Contains(r, "---")
    && (|r| >= 1 && r[0] == '-' ==> |s| >= 1 && s[0] == '-')
    && (|r| >= 2 && r[0] == '-' && r[1] == '-' ==> |s| >= 2 && s[0] == '-' && s[1] == '-' && (|s| < 3 || s[2] != '-'))
  }

  /**
   * The pass replaces a run of three dashes as soon as the scan reaches one, and `<hr>`
   * holds no dash, so no `---` survives it.
   */
  lemma {:induction false} HrPass(s: string)
    ensures !Contains(Replace(s, "---", "<hr>"), "---")
    ensures HrFacts(s)
    decreases |s|
  {
    if |s| < 3 {
      assert Replace(s, "---", "<hr>") == s;
    } else if s[..3] == "---" {
      HrPass(s[3..]);
      HrRuleStep(s);
    } else {
      HrPass(s[1..]);
      HrCopyStep(s);
    }
  }

  /** A `---` at the front becomes `<hr>`, which no `---` can overlap. */
  lemma HrRuleStep(s: string)
    requires |s| >= 3 && s[..3] == "---" && HrFacts(s[3..])
    ensures HrFacts(s)
  {
    var r := Replace(s, "---", "<hr>");
    var t := Replace(s[3..], "---", "<hr>");
    assert r == "<hr>" + t;
    forall j | 0 <= j <= |r| - 3 ensures !OccursAt(r, "---", j) {
      if j < 4 {
        assert r[j] != '-';
        assert r[j..j + 3][0] == r[j];
      } else {
        assert t[j - 4..j - 1] == r[j..j + 3];
        assert !OccursAt(t, "---", j - 4);
      }
    }
  }

  /** A front character that does not start `---` is copied and cannot start one either. */
  lemma HrCopyStep(s: string)
    requires |s| >= 3 && s[..3] != "---" && HrFacts(s[1..])
    ensures HrFacts(s)
  {
    var r := Replace(s, "---", "<hr>");
    var t := Replace(s[1..], "---", "<hr>");
    assert r == [s[0]] + t;
    assert s[..3] == [s[0], s[1], s[2]];
    forall j | 0 <= j <= |r| - 3 ensures !OccursAt(r, "---", j) {
      if j == 0 {
        assert r[..3] == [r[0], r[1], r[2]] && r[1] == t[0] && r[2] == t[1];
        if s[0] != '-' {
          assert r[0] != '-';
        } else if s[1] != '-' {
          assert t[0] != '-';
        } else {
          assert s[2] != '-';
          assert !(t[0] == '-' && t[1] == '-');
        }
      } else {
        assert t[j - 1..j + 2] == r[j..j + 3];
        assert !OccursAt(t, "---", j - 1);
      }
    }
  }

  /** No `---` is left in the converted text. */
  lemma HtmlHasNoRule(text: string, inline: string -> string)
    ensures !Contains(Html(text, inline), "---")
  {
    var lines := SplitOn(PerLine(inline, HeaderPasses(text)), '\n');
    HrPass(JoinWith(ParagraphHtml(ListHtml(lines)), "\n"));
  }

  /** No line of `ls` holds a newline. */
  predicate NoNewlines(ls: seq<string>) {
    forall i :: 0 <= i < |ls| ==> '\n' !in ls[i]
  }

  lemma NoNewlinesConcat(a: seq<string>, b: seq<string>)
    requires NoNewlines(a) && NoNewlines(b)
    ensures NoNewlines(a + b)
  {
  }

  lemma {:induction false} LisNoNewline(items: seq<string>)
    requires forall i :: 0 <= i < |items| ==> IsItem(items[i])
    requires NoNewlines(items)
    ensures NoNewlines(Lis(items))
    decreases |items|
  {
    if items != [] {
      LisNoNewline(items[1..]);
      assert forall c :: c in items[0][2..] ==> c in items[0];
      NoNewlinesConcat([Li(items[0])], Lis(items[1..]));
    }
  }

  lemma {:induction false} RenderBlocksNoNewline(bs: seq<Block>)
    requires forall i :: 0 <= i < |bs| ==> WellFormed(bs[i]) && NoNewlines(BlockLines(bs[i]))
    ensures NoNewlines(RenderBlocks(bs))
    decreases |bs|
  {
    if bs != [] {
      RenderBlocksNoNewline(bs[1..]);
      assert WellFormed(bs[0]) && NoNewlines(BlockLines(bs[0]));
      if bs[0].ListBlock? {
        var items := bs[0].items;
        LisNoNewline(items);
        NoNewlinesConcat(["<ul>"], Lis(items));
        NoNewlinesConcat(["<ul>"] + Lis(items), ["</ul>"]);
      }
      NoNewlinesConcat(RenderBlock(bs[0]), RenderBlocks(bs[1..]));
    }
  }

  /** The line list the list pass emits, joined and split again, is the same list. */
  lemma ListHtmlResplit(lines: seq<string>)
    requires lines != [] && NoNewlines(lines)
    ensures SplitOn(JoinWith(ListHtml(lines), "\n"), '\n') == ListHtml(lines)
  {
    var bs := Blocks(lines);
    BlocksProperties(lines);
    forall i | 0 <= i < |bs| ensures NoNewlines(BlockLines(bs[i])) {
      BlockLinesIn(bs, i);
    }
    RenderBlocksNoNewline(bs);
    assert RenderBlocks(bs) == RenderBlock(bs[0]) + RenderBlocks(bs[1..]);
    SplitOnJoin(ListHtml(lines), '\n');
  }

  /** Every line of a block is one of the lines the blocks stand for. */
  lemma {:induction false} BlockLinesIn(bs: seq<Block>, i: int)
    requires 0 <= i < |bs|
    ensures forall j :: 0 <= j < |BlockLines(bs[i])| ==> BlockLines(bs[i])[j] in AllBlockLines(bs)
    decreases i
  {
    if i > 0 {
      BlockLinesIn(bs[1..], i - 1);
    }
  }

  /** The conversion, pass by pass, as the script performs it. */
  method MarkdownToHtml(text: string, inline: string -> string) returns (html: string)
    ensures html == Html(text, inline)
  {
    var t := HeaderPasses(text);
    t := PerLine(inline, t);
    var lines := SplitOn(t, '\n');
    assert NoNewlines(lines);
    var listed := ListPass(lines);
    t := JoinWith(listed, "\n");
    ListHtmlResplit(lines);
    var paragraphs := ParagraphPass(SplitOn(t, '\n'));
    t := JoinWith(paragraphs, "\n");
    html := Replace(t, "---", "<hr>");
  }
}
