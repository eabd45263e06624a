/**
 * The blog builder apart from its page layouts: frontmatter parsing, template
 * placeholder substitution, XML escaping, the two date formats, and the order
 * and truncation of the index page and the RSS feed.
 */
module Blog {
  import opened Wrappers
  import opened Text
  import opened Order
  import opened Calendar

  // ---- Frontmatter ----

  /**
   * `content.split("---", 2)` when it yields three parts and `content` starts with
   * `---`: the text between the opening `---` and the next one, and everything after
   * that. None where `parse_frontmatter` returns the content unchanged.
   */
  function SplitFrontmatter(content: string): (r: Option<(string, string)>)
    ensures r.None? <==> !StartsWith(content, "---") || !Contains(content[3..], "---")
    ensures r.Some? ==> content == "---" + r.value.0 + "---" + r.value.1
    ensures r.Some? ==> !Contains(r.value.0 + "--", "---") && !Contains(r.value.0, "---")
  {
    if !StartsWith(content, "---") then None
    else
      var rest := content[3..];
      match Find(rest, "---")
      case None => None
      case Some(k) =>
        FirstClosing(rest, k);
        assert content == content[..3] + rest;
        assert rest == rest[..k] + rest[k..k + 3] + rest[k + 3..];
        Some((rest[..k], rest[k + 3..]))
  }

  /**
   * The text before the first `---` holds none, and no `---` starts in its last two
   * characters either: the split is at the first closing marker.
   */
  lemma FirstClosing(rest: string, k: nat)
    requires Find(rest, "---") == Some(k)
    ensures !Contains(rest[..k] + "--", "---") && !Contains(rest[..k], "---")
  {
    var header := rest[..k];
    assert rest[k..k + 3] == "---";
    assert rest[k] == rest[k..k + 3][0] && rest[k + 1] == rest[k..k + 3][1];
    var h := header + "--";
    assert h == rest[..k + 2];
    forall j | 0 <= j <= |h| - 3 ensures !OccursAt(h, "---", j) {
      assert h[j..j + 3] == rest[j..j + 3];
      assert !OccursAt(rest, "---", j);
    }
    forall j | 0 <= j <= |header| - 3 ensures !OccursAt(header, "---", j) {
      assert header[j..j + 3] == rest[j..j + 3];
      assert !OccursAt(rest, "---", j);
    }
  }

  /** One frontmatter line: `key: value` split at the first `:`, both sides stripped; None without a `:`. */
  function Entry(line: string): Option<(string, string)> {
    match FirstIndex(line, ':')
    case None => None
    case Some(i) => Some((Strip(line[..i]), Strip(line[i + 1..])))
  }

  /** A line makes an entry exactly when it holds a `:`, and it is split at the first one. */
  lemma EntrySplit(line: string)
    ensures Entry(line).None? <==> ':' !in line
    ensures Entry(line).Some? ==>
      exists i :: 0 <= i < |line| && line[i] == ':' && ':' !in line[..i]
        && Entry(line).value == (Strip(line[..i]), Strip(line[i + 1..]))
  {
    EntryNone(line);
    if Entry(line).Some? {
      EntryAt(line);
    }
  }

  lemma EntryNone(line: string)
    ensures Entry(line).None? <==> ':' !in line
  {
  }

  lemma EntryAt(line: string)
    requires ':' in line
    ensures var i := FirstIndex(line, ':').value;
      0 <= i < |line| && line[i] == ':' && ':' !in line[..i]
      && Entry(line) == Some((Strip(line[..i]), Strip(line[i + 1..])))
  {
  }

  type Entries = seq<Option<(string, string)>>

  /** The entry of every line, in order. */
  function EntriesOf(lines: seq<string>): Entries
    decreases |lines|
  {
    if lines == [] then [] else EntriesOf(lines[..|lines| - 1]) + [Entry(lines[|lines| - 1])]
  }

  /** The dictionary after storing one entry, if there is one. */
  function Stored(meta: map<string, string>, e: Option<(string, string)>): map<string, string> {
    match e
    case None => meta
    case Some((k, v)) => meta[k := v]
  }

  /** The dictionary left behind by storing the entries one after the other. */
  function Collect(es: Entries): map<string, string>
    decreases |es|
  {
    if es == [] then map[] else Stored(Collect(es[..|es| - 1]), es[|es| - 1])
  }

  /** The entry has key `key`. */
  predicate HasKey(e: Option<(string, string)>, key: string) {
    e.Some? && e.value.0 == key
  }

  /** Only lines with a `:` make entries, and every such line's key is present. */
  lemma {:induction false} CollectKeys(es: Entries, key: string)
    ensures key in Collect(es) <==> exists j :: 0 <= j < |es| && HasKey(es[j], key)
    decreases |es|
  {
    if es != [] {
      var init := es[..|es| - 1];
      var last := es[|es| - 1];
      CollectKeys(init, key);
      assert key in Collect(es) <==> key in Collect(init) || HasKey(last, key);
      if exists j :: 0 <= j < |es| && HasKey(es[j], key) {
        var j :| 0 <= j < |es| && HasKey(es[j], key);
        if j < |init| {
          assert init[j] == es[j];
        }
      }
      if exists j :: 0 <= j < |init| && HasKey(init[j], key) {
        var j :| 0 <= j < |init| && HasKey(init[j], key);
        assert es[j] == init[j];
      }
    }
  }

  /** A repeated key keeps the value of its last line. */
  lemma {:induction false} CollectLast(es: Entries, j: int)
    requires 0 <= j < |es| && es[j].Some?
    requires forall l :: j < l < |es| ==> !HasKey(es[l], es[j].value.0)
    ensures es[j].value.0 in Collect(es)
    ensures Collect(es)[es[j].value.0] == es[j].value.1
    decreases |es|
  {
    var init := es[..|es| - 1];
    if j < |es| - 1 {
      assert init[j] == es[j];
      assert forall l :: j < l < |init| ==> init[l] == es[l];
      CollectLast(init, j);
    }
  }

  lemma CollectSnoc(es: Entries, e: Option<(string, string)>)
    ensures Collect(es + [e]) == Stored(Collect(es), e)
  {
    assert (es + [e])[..|es|] == es;
  }

  /** Storing the entry of line `i` extends the dictionary of the lines before it. */
  lemma StoreStep(lines: seq<string>, i: nat, meta: map<string, string>)
    requires i < |lines| && meta == Collect(EntriesOf(lines[..i]))
    ensures Collect(EntriesOf(lines[..i + 1])) == Stored(meta, Entry(lines[i]))
  {
    var es := EntriesOf(lines[..i]);
    assert EntriesOf(lines[..i + 1]) == es + [Entry(lines[i])] by {
      assert lines[..i + 1][..i] == lines[..i];
    }
    CollectSnoc(es, Entry(lines[i]));
  }

  /** The body of the loop: a line with a `:` sets its stripped key to its stripped value. */
  method StoreLine(meta: map<string, string>, line: string) returns (m: map<string, string>)
    ensures ':' !in line ==> m == meta
    ensures ':' in line ==> m == meta[Entry(line).value.0 := Entry(line).value.1]
    ensures m == Stored(meta, Entry(line))
  {
    EntryNone(line);
    var entry := Entry(line);
    if entry.Some? {
      m := meta[entry.value.0 := entry.value.1];
    } else {
      m := meta;
    }
  }

  /** The loop of `parse_frontmatter` over the header lines. */
  method ReadEntries(lines: seq<string>) returns (meta: map<string, string>)
    ensures meta == Collect(EntriesOf(lines))
  {
    meta := map[];
    var i := 0;
    while i < |lines|
      invariant 0 <= i <= |lines|
      invariant meta == Collect(EntriesOf(lines[..i]))
    {
      StoreStep(lines, i, meta);
      meta := StoreLine(meta, lines[i]);
      i := i + 1;
    }
    assert lines[..i] == lines;
  }

  /** `parse_frontmatter`: the `key: value` lines of the stripped header, and the stripped body. */
  method ParseFrontmatter(content: string) returns (meta: map<string, string>, body: string)
    ensures SplitFrontmatter(content).None? ==> meta == map[] && body == content
    ensures SplitFrontmatter(content).Some? ==>
      meta == Collect(EntriesOf(SplitOn(Strip(SplitFrontmatter(content).value.0), '\n')))
      && body == Strip(SplitFrontmatter(content).value.1)
  {
    match SplitFrontmatter(content)
    case None =>
      meta, body := map[], content;
    case Some((header, rest)) =>
      meta := ReadEntries(SplitOn(Strip(header), '\n'));
      body := Strip(rest);
  }

  /** A block that ends at its first closing `---` is read back as written. */
  lemma FrontmatterBlock(header: string, rest: string)
    requires !Contains(header + "--", "---")
    ensures SplitFrontmatter("---" + header + "---" + rest) == Some((header, rest))
  {
    var content := "---" + header + "---" + rest;
    assert StartsWith(content, "---");
    var t := content[3..];
    assert t == header + "---" + rest;
    assert OccursAt(t, "---", |header|);
    forall j | 0 <= j < |header| ensures !OccursAt(t, "---", j) {
      if OccursAt(t, "---", j) {
        assert t[j..j + 3] == (header + "--")[j..j + 3];
        assert OccursAt(header + "--", "---", j);
      }
    }
    assert Find(t, "---") == Some(|header|);
    assert t[..|header|] == header;
    assert t[|header| + 3..] == rest;
  }

  // ---- Templates ----

  function Spaced(key: string): string { "{{ " + key + " }}" }
  function Tight(key: string): string { "{{" + key + "}}" }

  /** One iteration of the loop: both placeholder spellings of `key` become `value`. */
  function Fill(t: string, key: string, value: string): string {
    Replace(Replace(t, Spaced(key), value), Tight(key), value)
  }

  /** The template after the loop has run over every `(key, value)` pair in order. */
  function Rendered(t: string, vars: seq<(string, string)>): string
    decreases |vars|
  {
    if vars == [] then t else Rendered(Fill(t, vars[0].0, vars[0].1), vars[1..])
  }

  /** No placeholder of any of the keys in `t`. */
  predicate NoPlaceholders(t: string, vars: seq<(string, string)>) {
    forall i :: 0 <= i < |vars| ==> !Contains(t, Spaced(vars[i].0)) && !Contains(t, Tight(vars[i].0))
  }

  /** `render_template(template, **kwargs)`, the keyword arguments in order. */
  method RenderTemplate(template: string, vars: seq<(string, string)>) returns (result: string)
    ensures result == Rendered(template, vars)
    ensures NoPlaceholders(template, vars) ==> result == template
  {
    result := template;
    var i := 0;
    while i < |vars|
      invariant 0 <= i <= |vars|
      invariant Rendered(result, vars[i..]) == Rendered(template, vars)
      invariant NoPlaceholders(template, vars) ==> result == template
    {
      var (key, value) := vars[i];
      assert vars[i..][1..] == vars[i + 1..];
      result := Replace(result, "{{ " + key + " }}", value);
      result := Replace(result, "{{" + key + "}}", value);
      i := i + 1;
    }
  }

  /** A template with no placeholder for any given key is returned unchanged. */
  lemma {:induction false} RenderedUnchanged(t: string, vars: seq<(string, string)>)
    requires NoPlaceholders(t, vars)
    ensures Rendered(t, vars) == t
    decreases |vars|
  {
    if vars != [] {
      assert Fill(t, vars[0].0, vars[0].1) == t;
      assert NoPlaceholders(t, vars[1..]) by {
        forall i | 0 <= i < |vars[1..]| ensures !Contains(t, Spaced(vars[1..][i].0)) && !Contains(t, Tight(vars[1..][i].0)) {
          assert vars[1..][i] == vars[i + 1];
        }
      }
      RenderedUnchanged(t, vars[1..]);
    }
  }

  /** Text holding no character `c` is left alone by any replacement of a pattern starting with `c`. */
  lemma ReplaceWithout(s: string, pat: string, rep: string)
    requires pat != [] && pat[0] !in s
    ensures Replace(s, pat, rep) == s
  {
    ReplaceSkips(s, [], pat, rep);
    assert s + [] == s;
  }

  /** One joint: the text before it is copied, the pattern is replaced. */
  lemma ReplaceJoint(head: string, tail: string, pat: string, rep: string)
    requires pat != [] && pat[0] !in head
    ensures Replace(head + pat + tail, pat, rep) == head + rep + Replace(tail, pat, rep)
  {
    ConcatAssoc(head, pat, tail);
    ReplaceSkips(head, pat + tail, pat, rep);
    ReplaceFront(pat, tail, rep);
    ConcatAssoc(head, rep, Replace(tail, pat, rep));
  }

  /** Pieces joined by the pattern, none holding its first character: every joint is replaced. */
  lemma {:induction false} ReplaceJoin(pieces: seq<string>, pat: string, rep: string)
    requires pat != [] && |pieces| >= 1
    requires forall i :: 0 <= i < |pieces| ==> pat[0] !in pieces[i]
    ensures Replace(JoinWith(pieces, pat), pat, rep) == JoinWith(pieces, rep)
    decreases |pieces|
  {
    if |pieces| == 1 {
      ReplaceWithout(pieces[0], pat, rep);
    } else {
      var rest := pieces[1..];
      assert forall i :: 0 <= i < |rest| ==> pat[0] !in rest[i] by {
        forall i | 0 <= i < |rest| ensures pat[0] !in rest[i] {
          assert rest[i] == pieces[i + 1];
        }
      }
      ReplaceJoin(rest, pat, rep);
      ReplaceJoint(pieces[0], JoinWith(rest, pat), pat, rep);
    }
  }

  lemma JoinWithout(pieces: seq<string>, sep: string, c: char)
    requires c !in sep && forall i :: 0 <= i < |pieces| ==> c !in pieces[i]
    ensures c !in JoinWith(pieces, sep)
    decreases |pieces|
  {
    if |pieces| > 1 {
      JoinWithout(pieces[1..], sep, c);
    }
  }

  /**
   * A template whose only braces are the spaced placeholders of `key`, filled with a
   * value without braces: every placeholder is replaced and no brace is left.
   */
  lemma FillSpaced(pieces: seq<string>, key: string, value: string)
    requires |pieces| >= 1 && '{' !in value
    requires forall i :: 0 <= i < |pieces| ==> '{' !in pieces[i]
    ensures Fill(JoinWith(pieces, Spaced(key)), key, value) == JoinWith(pieces, value)
    ensures '{' !in Fill(JoinWith(pieces, Spaced(key)), key, value)
  {
    ReplaceJoin(pieces, Spaced(key), value);
    JoinWithout(pieces, value, '{');
    ReplaceWithout(JoinWith(pieces, value), Tight(key), value);
  }

  /** The same for the tight spelling `{{key}}`, for a key without braces. */
  lemma FillTight(pieces: seq<string>, key: string, value: string)
    requires |pieces| >= 1 && '{' !in value && '{' !in key
    requires forall i :: 0 <= i < |pieces| ==> '{' !in pieces[i]
    ensures Fill(JoinWith(pieces, Tight(key)), key, value) == JoinWith(pieces, value)
    ensures '{' !in Fill(JoinWith(pieces, Tight(key)), key, value)
  {
    NoSpacedInTight(pieces, key);
    ReplaceJoin(pieces, Tight(key), value);
    JoinWithout(pieces, value, '{');
  }

  /** Tight placeholders joining brace-free pieces never form a spaced one. */
  lemma {:induction false} NoSpacedInTight(pieces: seq<string>, key: string)
    requires |pieces| >= 1 && '{' !in key
    requires forall i :: 0 <= i < |pieces| ==> '{' !in pieces[i]
    ensures !Contains(JoinWith(pieces, Tight(key)), Spaced(key))
    decreases |pieces|
  {
    var t := JoinWith(pieces, Tight(key));
    var S := Spaced(key);
    var T := Tight(key);
    if |pieces| == 1 {
      assert t == pieces[0];
      assert S[0] == '{';
      forall i | 0 <= i <= |t| - |S| ensures !OccursAt(t, S, i) {
        assert t[i..i + |S|][0] == t[i];
        assert t[i] in pieces[0];
      }
    } else {
      var p0 := pieces[0];
      var rest := JoinWith(pieces[1..], T);
      NoSpacedInTight(pieces[1..], key);
      assert t == p0 + T + rest;
      forall i | 0 <= i <= |t| - |S| ensures !OccursAt(t, S, i) {
        var w := t[i..i + |S|];
        if i < |p0| {
          assert w[0] == p0[i];
          assert p0[i] in p0;
        } else if i == |p0| {
          assert w[3 + |key|] == T[3 + |key|] == '}';
          assert S[3 + |key|] == ' ';
          assert w != S;
        } else if i == |p0| + 1 {
          assert w[1] == T[2];
          if |key| > 0 {
            assert T[2] == key[0];
            assert key[0] in key;
          }
          assert w != S;
        } else if i < |p0| + |T| {
          var j := i - |p0|;
          assert w[0] == T[j];
          if j < 2 + |key| {
            assert T[j] == key[j - 2];
            assert key[j - 2] in key;
          }
          assert w != S;
        } else {
          var j := i - |p0| - |T|;
          assert w == rest[j..j + |S|];
          assert !OccursAt(rest, S, j);
        }
      }
    }
  }

  /**
   * Rendering can leave a placeholder behind: with a one-character key `k` that is its own
   * value, the template `{{ {{k}} }}` keeps no spaced placeholder, its tight one becomes `k`,
   * and what remains is the spaced placeholder `{{ k }}`.
   */
  lemma PlaceholderCanRemain(k: string)
    requires |k| == 1 && k[0] != '{' && k[0] != ' '
    ensures Rendered("{{ " + Tight(k) + " }}", [(k, k)]) == Spaced(k)
    ensures Contains(Rendered("{{ " + Tight(k) + " }}", [(k, k)]), Spaced(k))
  {
    var t := "{{ " + Tight(k) + " }}";
    SpacedAbsent(k, t);
    RenderedOne(t, k, k);
    FillWithoutSpaced(t, k, k);
    TightInsideSpaced(k);
    assert OccursAt(Spaced(k), Spaced(k), 0);
  }

  lemma RenderedOne(t: string, key: string, value: string)
    ensures Rendered(t, [(key, value)]) == Fill(t, key, value)
  {
    assert [(key, value)][1..] == [];
  }

  lemma FillWithoutSpaced(t: string, key: string, value: string)
    requires !Contains(t, Spaced(key))
    ensures Fill(t, key, value) == Replace(t, Tight(key), value)
  {
  }

  /** The template `{{ {{k}} }}` holds no spaced placeholder of the one-character key `k`. */
  lemma SpacedAbsent(k: string, t: string)
    requires |k| == 1 && k[0] != '{' && k[0] != ' '
    requires t == "{{ " + Tight(k) + " }}"
    ensures !Contains(t, Spaced(k))
  {
    var S := Spaced(k);
    assert |t| == 11 && |S| == 7;
    forall i | 0 <= i <= |t| - |S| ensures !OccursAt(t, S, i) {
      var w := t[i..i + |S|];
      assert i == 0 ==> w[3] != S[3];
      assert i == 1 ==> w[1] != S[1];
      assert i == 2 ==> w[0] != S[0];
      assert i == 3 ==> w[2] != S[2];
      assert i == 4 ==> w[1] != S[1];
    }
  }

  /** One step of the scan: the pattern differs from the front at `j`, so the first character is copied. */
  lemma ReplaceStep(s: string, pat: string, rep: string, j: nat)
    requires j < |pat| <= |s| && s[j] != pat[j]
    ensures Replace(s, pat, rep) == [s[0]] + Replace(s[1..], pat, rep)
  {
    assert s[..|pat|][j] != pat[j];
  }

  /**
   * A tight placeholder wrapped in the braces and spaces of a spaced one becomes the spaced
   * placeholder when the key is its own value.
   */
  lemma TightInsideSpaced(k: string)
    requires k == [] || k[0] != ' '
    ensures Replace("{{ " + Tight(k) + " }}", Tight(k), k) == Spaced(k)
  {
    var s1 := "{{ " + Tight(k) + " }}";
    TightAfterBraces(k, s1);
    TightAfterBrace(k, s1[1..]);
  }

  lemma TightAfterBraces(k: string, s1: string)
    requires k == [] || k[0] != ' '
    requires s1 == "{{ " + Tight(k) + " }}"
    ensures s1[1..] == "{ " + Tight(k) + " }}"
    ensures Replace(s1, Tight(k), k) == "{" + Replace(s1[1..], Tight(k), k)
  {
    assert s1[2] == ' ';
    ReplaceStep(s1, Tight(k), k, 2);
  }

  lemma TightAfterBrace(k: string, s2: string)
    requires s2 == "{ " + Tight(k) + " }}"
    ensures "{" + Replace(s2, Tight(k), k) == Spaced(k)
  {
    assert s2[0] == '{' && s2[1] == ' ';
    ReplaceStep(s2, Tight(k), k, 1);
    assert s2[1..] == " " + Tight(k) + " }}";
    TightAfterSpace(k, s2[1..]);
    BracesAround(k, Replace(s2, Tight(k), k));
  }

  lemma BracesAround(k: string, r: string)
    requires r == ['{'] + (" " + k + " }}")
    ensures "{" + r == Spaced(k)
  {
  }

  lemma TightAfterSpace(k: string, s3: string)
    requires s3 == " " + Tight(k) + " }}"
    ensures Replace(s3, Tight(k), k) == " " + k + " }}"
  {
    var T := Tight(k);
    assert |T| == |k| + 4 && T[0] == '{' && s3[0] == ' ';
    ReplaceStep(s3, T, k, 0);
    assert s3[1..] == T + " }}";
    ReplaceFront(T, " }}", k);
    ShortTail(T, k);
  }

  /** The closing `" }}"` is shorter than any tight placeholder, so it is left as it is. */
  lemma ShortTail(T: string, k: string)
    requires |T| >= 4
    ensures Replace(" }}", T, k) == " }}"
  {
  }

  // ---- Templates as literal text and placeholders ----

  /** A piece of a template: literal text, or a placeholder in one of its two spellings. */
  datatype Segment = Lit(text: string) | Hole(key: string, spaced: bool)

  function HoleText(key: string, spaced: bool): string {
    if spaced then Spaced(key) else Tight(key)
  }

  function SegmentText(g: Segment): string {
    match g
    case Lit(s) => s
    case Hole(k, sp) => HoleText(k, sp)
  }

  /** The template text the segments spell out. */
  function TemplateOf(gs: seq<Segment>): string
    decreases |gs|
  {
    if gs == [] then "" else SegmentText(gs[0]) + TemplateOf(gs[1..])
  }

  /**
   * A key as a keyword argument name has it: no brace and no space. (Python identifiers
   * satisfy this.)
   */
  predicate IsKey(k: string) {
    '{' !in k && '}' !in k && ' ' !in k
  }

  /** Literal text holds no `{`; placeholders have proper keys. */
  predicate GoodSegment(g: Segment) {
    match g
    case Lit(s) => '{' !in s
    case Hole(k, _) => IsKey(k)
  }

  predicate GoodSegments(gs: seq<Segment>) {
    forall i :: 0 <= i < |gs| ==> GoodSegment(gs[i])
  }

  /** Keys are proper and values hold no `{`. */
  predicate GoodVars(vars: seq<(string, string)>) {
    forall i :: 0 <= i < |vars| ==> IsKey(vars[i].0) && '{' !in vars[i].1
  }

  /** The value of the first pair with key `k`. */
  function Lookup(vars: seq<(string, string)>, k: string): Option<string>
    decreases |vars|
  {
    if vars == [] then None else if vars[0].0 == k then Some(vars[0].1) else Lookup(vars[1..], k)
  }

  /** What a segment reads as once every supplied key is substituted: unsupplied placeholders stay. */
  function Substituted(g: Segment, vars: seq<(string, string)>): string {
    match g
    case Lit(s) => s
    case Hole(k, sp) => if Lookup(vars, k).Some? then Lookup(vars, k).value else HoleText(k, sp)
  }

  function SubstitutedAll(gs: seq<Segment>, vars: seq<(string, string)>): string
    decreases |gs|
  {
    if gs == [] then "" else Substituted(gs[0], vars) + SubstitutedAll(gs[1..], vars)
  }

  /** Column of the first key character. */
  function KeyOffset(spaced: bool): nat {
    if spaced then 3 else 2
  }

  lemma HoleChars(k: string, sp: bool)
    requires IsKey(k)
    ensures var h := HoleText(k, sp);
      |h| == |k| + 2 * KeyOffset(sp) && h[0] == '{' && h[1] == '{'
      && (sp ==> h[2] == ' ') && h[KeyOffset(sp) + |k|] == (if sp then ' ' else '}')
      && '{' !in h[2..]
    ensures forall i :: 0 <= i < |k| ==> HoleText(k, sp)[KeyOffset(sp) + i] == k[i]
  {
    var h := HoleText(k, sp);
    var o := KeyOffset(sp);
    assert h[o..o + |k|] == k;
    forall i | 0 <= i < |k| ensures h[o + i] == k[i] {
      assert h[o..o + |k|][i] == h[o + i];
    }
    forall x | x in h[2..] ensures x != '{' {
      var i :| 0 <= i < |h[2..]| && h[2..][i] == x;
      if o <= i + 2 < o + |k| {
        assert x == k[i + 2 - o];
      }
    }
  }

  /** Two different placeholders differ at a column both of them have. */
  lemma HoleDiffer(k1: string, sp1: bool, k2: string, sp2: bool) returns (d: nat)
    requires IsKey(k1) && IsKey(k2) && (k1 != k2 || sp1 != sp2)
    ensures d < |HoleText(k1, sp1)| && d < |HoleText(k2, sp2)|
    ensures HoleText(k1, sp1)[d] != HoleText(k2, sp2)[d]
  {
    HoleChars(k1, sp1);
    HoleChars(k2, sp2);
    var o := KeyOffset(sp1);
    if sp1 != sp2 {
      d := 2;
      if |k1| > 0 { assert k1[0] in k1; }
      if |k2| > 0 { assert k2[0] in k2; }
    } else if |k1| < |k2| {
      d := o + |k1|;
      assert k2[|k1|] in k2;
    } else if |k2| < |k1| {
      d := o + |k2|;
      assert k1[|k2|] in k1;
    } else {
      var i :| 0 <= i < |k1| && k1[i] != k2[i];
      d := o + i;
    }
  }

  /** The scan passes over a placeholder of another key or spelling without replacing any of it. */
  lemma ReplaceOverHole(k1: string, sp1: bool, rest: string, k: string, sp: bool, v: string)
    requires IsKey(k1) && IsKey(k) && (k1 != k || sp1 != sp)
    ensures Replace(HoleText(k1, sp1) + rest, HoleText(k, sp), v) == HoleText(k1, sp1) + Replace(rest, HoleText(k, sp), v)
  {
    HoleChars(k1, sp1);
    HoleChars(k, sp);
    var d := HoleDiffer(k1, sp1, k, sp);
    ReplaceOverPrefix(HoleText(k1, sp1), rest, HoleText(k, sp), v, d);
  }

  /**
   * A prefix that differs from the pattern at column `d`, whose third character differs from
   * the pattern's second, and whose tail from the third character on never starts the pattern,
   * is copied as it is.
   */
  lemma ReplaceOverPrefix(h: string, rest: string, p: string, v: string, d: nat)
    requires |h| >= 3 && |p| >= 2 && d < |h| && d < |p| && h[d] != p[d]
    requires h[2] != p[1] && p[0] !in h[2..]
    ensures Replace(h + rest, p, v) == h + Replace(rest, p, v)
  {
    var s := h + rest;
    if |s| < |p| {
      ShortUnreplaced(rest, p, v);
    } else {
      assert s[d] == h[d];
      ReplaceStep(s, p, v, d);
      assert s[1..] == h[1..] + rest;
      OverPrefixTail(h[1..], rest, p, v);
      ConsConcat(h, Replace(rest, p, v));
    }
  }

  lemma OverPrefixTail(t: string, rest: string, p: string, v: string)
    requires |t| >= 2 && |p| >= 2 && t[1] != p[1] && p[0] !in t[1..]
    ensures Replace(t + rest, p, v) == t + Replace(rest, p, v)
  {
    var s := t + rest;
    if |s| < |p| {
      ShortUnreplaced(rest, p, v);
    } else {
      assert s[1] == t[1];
      ReplaceStep(s, p, v, 1);
      assert s[1..] == t[1..] + rest;
      ReplaceSkips(t[1..], rest, p, v);
      ConsConcat(t, Replace(rest, p, v));
    }
  }

  /** Text shorter than the pattern is left as it is. */
  lemma ShortUnreplaced(s: string, p: string, v: string)
    requires p != [] && |s| < |p|
    ensures Replace(s, p, v) == s
  {
  }

  lemma ConsConcat(h: string, x: string)
    requires h != []
    ensures [h[0]] + (h[1..] + x) == h + x
  {
    assert h == [h[0]] + h[1..];
  }

  /** The segments with every placeholder of key `k` in spelling `sp` turned into the text `v`. */
  function FillHoles(gs: seq<Segment>, k: string, sp: bool, v: string): (r: seq<Segment>)
    ensures |r| == |gs|
    decreases |gs|
  {
    if gs == [] then []
    else [if gs[0] == Hole(k, sp) then Lit(v) else gs[0]] + FillHoles(gs[1..], k, sp, v)
  }

  lemma {:induction false} FillHolesGood(gs: seq<Segment>, k: string, sp: bool, v: string)
    requires GoodSegments(gs) && '{' !in v
    ensures GoodSegments(FillHoles(gs, k, sp, v))
    decreases |gs|
  {
    if gs != [] {
      FillHolesGood(gs[1..], k, sp, v);
      var r := FillHoles(gs, k, sp, v);
      assert GoodSegment(gs[0]);
      forall i | 0 <= i < |r| ensures GoodSegment(r[i]) {
        if i > 0 {
          assert r[i] == FillHoles(gs[1..], k, sp, v)[i - 1];
        }
      }
    }
  }

  /** One `replace` call on a template replaces exactly the placeholders it names. */
  lemma {:induction false} ReplaceSegments(gs: seq<Segment>, k: string, sp: bool, v: string)
    requires GoodSegments(gs) && IsKey(k)
    ensures Replace(TemplateOf(gs), HoleText(k, sp), v) == TemplateOf(FillHoles(gs, k, sp, v))
    decreases |gs|
  {
    var p := HoleText(k, sp);
    HoleChars(k, sp);
    if gs == [] {
      assert Replace("", p, v) == "";
    } else {
      var t := TemplateOf(gs[1..]);
      var r := FillHoles(gs, k, sp, v);
      assert GoodSegment(gs[0]);
      assert GoodSegments(gs[1..]) by {
        forall i | 0 <= i < |gs[1..]| ensures GoodSegment(gs[1..][i]) {
          assert gs[1..][i] == gs[i + 1];
        }
      }
      ReplaceSegments(gs[1..], k, sp, v);
      assert r[1..] == FillHoles(gs[1..], k, sp, v);
      assert TemplateOf(r) == SegmentText(r[0]) + TemplateOf(r[1..]);
      match gs[0]
      case Lit(a) =>
        ReplaceSkips(a, t, p, v);
      case Hole(k1, sp1) =>
        if gs[0] == Hole(k, sp) {
          ReplaceFront(p, t, v);
        } else {
          ReplaceOverHole(k1, sp1, t, k, sp, v);
        }
    }
  }

  /** Both replacements for one key. */
  function FillKey(gs: seq<Segment>, k: string, v: string): seq<Segment> {
    FillHoles(FillHoles(gs, k, true, v), k, false, v)
  }

  lemma FillSegments(gs: seq<Segment>, k: string, v: string)
    requires GoodSegments(gs) && IsKey(k) && '{' !in v
    ensures Fill(TemplateOf(gs), k, v) == TemplateOf(FillKey(gs, k, v))
    ensures GoodSegments(FillKey(gs, k, v))
  {
    ReplaceSegments(gs, k, true, v);
    FillHolesGood(gs, k, true, v);
    ReplaceSegments(FillHoles(gs, k, true, v), k, false, v);
    FillHolesGood(FillHoles(gs, k, true, v), k, false, v);
  }

  /** Filling key `k` first and substituting the rest is substituting with `(k, v)` in front. */
  lemma {:induction false} SubstitutedFill(gs: seq<Segment>, k: string, v: string, rest: seq<(string, string)>)
    ensures SubstitutedAll(FillKey(gs, k, v), rest) == SubstitutedAll(gs, [(k, v)] + rest)
    decreases |gs|
  {
    var vars := [(k, v)] + rest;
    assert vars[1..] == rest;
    if gs != [] {
      SubstitutedFill(gs[1..], k, v, rest);
      var f1 := FillHoles(gs, k, true, v);
      assert f1[1..] == FillHoles(gs[1..], k, true, v);
      var f := FillKey(gs, k, v);
      assert f[1..] == FillKey(gs[1..], k, v);
      assert Substituted(f[0], rest) == Substituted(gs[0], vars);
    }
  }

  lemma {:induction false} SubstitutedNone(gs: seq<Segment>)
    ensures SubstitutedAll(gs, []) == TemplateOf(gs)
    decreases |gs|
  {
    if gs != [] {
      SubstitutedNone(gs[1..]);
    }
  }

  /**
   * `render_template` on a template of literal text and placeholders, with proper keys and
   * values free of `{`: every placeholder of a supplied key, in either spelling, becomes the
   * value of that key, and every other placeholder stays as written.
   */
  lemma {:induction false} RenderSegments(gs: seq<Segment>, vars: seq<(string, string)>)
    requires GoodSegments(gs) && GoodVars(vars)
    ensures Rendered(TemplateOf(gs), vars) == SubstitutedAll(gs, vars)
    decreases |vars|
  {
    if vars == [] {
      SubstitutedNone(gs);
    } else {
      var (k, v) := vars[0];
      FillSegments(gs, k, v);
      assert GoodVars(vars[1..]) by {
        forall i | 0 <= i < |vars[1..]| ensures IsKey(vars[1..][i].0) && '{' !in vars[1..][i].1 {
          assert vars[1..][i] == vars[i + 1];
        }
      }
      RenderSegments(FillKey(gs, k, v), vars[1..]);
      SubstitutedFill(gs, k, v, vars[1..]);
      assert [(k, v)] + vars[1..] == vars;
    }
  }

  /** Every key the template uses is supplied. */
  predicate AllSupplied(gs: seq<Segment>, vars: seq<(string, string)>) {
    forall i :: 0 <= i < |gs| && gs[i].Hole? ==> Lookup(vars, gs[i].key).Some?
  }

  lemma {:induction false} LookupFree(vars: seq<(string, string)>, k: string)
    requires GoodVars(vars)
    ensures Lookup(vars, k).Some? ==> '{' !in Lookup(vars, k).value
    decreases |vars|
  {
    if vars != [] && vars[0].0 != k {
      assert GoodVars(vars[1..]) by {
        forall i | 0 <= i < |vars[1..]| ensures IsKey(vars[1..][i].0) && '{' !in vars[1..][i].1 {
          assert vars[1..][i] == vars[i + 1];
        }
      }
      LookupFree(vars[1..], k);
    }
  }

  lemma {:induction false} SubstitutedAllFree(gs: seq<Segment>, vars: seq<(string, string)>)
    requires GoodSegments(gs) && GoodVars(vars) && AllSupplied(gs, vars)
    ensures '{' !in SubstitutedAll(gs, vars)
    decreases |gs|
  {
    if gs != [] {
      assert GoodSegment(gs[0]);
      if gs[0].Hole? {
        LookupFree(vars, gs[0].key);
      }
      assert GoodSegments(gs[1..]) && AllSupplied(gs[1..], vars) by {
        forall i | 0 <= i < |gs[1..]| ensures gs[1..][i] == gs[i + 1] {
        }
      }
      SubstitutedAllFree(gs[1..], vars);
    }
  }

  /** With every key the template uses supplied, no `{` is left: no placeholder survives. */
  lemma RenderedComplete(gs: seq<Segment>, vars: seq<(string, string)>)
    requires GoodSegments(gs) && GoodVars(vars) && AllSupplied(gs, vars)
    ensures '{' !in Rendered(TemplateOf(gs), vars)
  {
    RenderSegments(gs, vars);
    SubstitutedAllFree(gs, vars);
  }

  // ---- XML escaping ----

  /** `escape_xml`: five replacements, `&` first. */
  function EscapeXml(text: string): string {
    Replace(Replace(Replace(Replace(Replace(text, "&", "&amp;"), "<", "&lt;"), ">", "&gt;"), "\"", "&quot;"), "'", "&apos;")
  }

  /** The entity a single character is written as. */
  function EscapeChar(c: char): string {
    if c == '&' then "&amp;"
    else if c == '<' then "&lt;"
    else if c == '>' then "&gt;"
    else if c == '"' then "&quot;"
    else if c == '\'' then "&apos;"
    else [c]
  }

  function EscapeChars(s: string): string
    decreases |s|
  {
    if s == [] then [] else EscapeChar(s[0]) + EscapeChars(s[1..])
  }

  lemma EscapeXmlConcat(a: string, b: string)
    ensures EscapeXml(a + b) == EscapeXml(a) + EscapeXml(b)
  {
    ReplaceCharConcat(a, b, '&', "&amp;");
    var a1, b1 := Replace(a, "&", "&amp;"), Replace(b, "&", "&amp;");
    ReplaceCharConcat(a1, b1, '<', "&lt;");
    var a2, b2 := Replace(a1, "<", "&lt;"), Replace(b1, "<", "&lt;");
    ReplaceCharConcat(a2, b2, '>', "&gt;");
    var a3, b3 := Replace(a2, ">", "&gt;"), Replace(b2, ">", "&gt;");
    ReplaceCharConcat(a3, b3, '"', "&quot;");
    var a4, b4 := Replace(a3, "\"", "&quot;"), Replace(b3, "\"", "&quot;");
    ReplaceCharConcat(a4, b4, '\'', "&apos;");
  }

  lemma ReplaceOne(c: char, x: char, rep: string)
    ensures Replace([c], [x], rep) == if c == x then rep else [c]
  {
    if c == x {
      assert [c][..1] == [x];
      assert Replace([c][1..], [x], rep) == [];
      assert rep + [] == rep;
    } else {
      ReplaceWithout([c], [x], rep);
    }
  }

  /** The four replacements after the first, as one function. */
  function EscapeRest(s1: string): string {
    Replace(Replace(Replace(Replace(s1, "<", "&lt;"), ">", "&gt;"), "\"", "&quot;"), "'", "&apos;")
  }

  lemma EscapeRestEntity(e: string)
    requires '<' !in e && '>' !in e && '"' !in e && '\'' !in e
    ensures EscapeRest(e) == e
  {
    ReplaceWithout(e, "<", "&lt;");
    ReplaceWithout(e, ">", "&gt;");
    ReplaceWithout(e, "\"", "&quot;");
    ReplaceWithout(e, "'", "&apos;");
  }

  lemma EscapeAmp(c: char)
    requires c == '&'
    ensures EscapeXml([c]) == "&amp;"
  {
    ReplaceOne(c, '&', "&amp;");
    assert EscapeXml([c]) == EscapeRest(Replace([c], "&", "&amp;"));
    EscapeRestEntity("&amp;");
  }

  lemma EscapeLt(c: char)
    requires c == '<'
    ensures EscapeXml([c]) == "&lt;"
  {
    ReplaceOne(c, '&', "&amp;");
    ReplaceOne(c, '<', "&lt;");
    ReplaceWithout("&lt;", ">", "&gt;");
    ReplaceWithout("&lt;", "\"", "&quot;");
    ReplaceWithout("&lt;", "'", "&apos;");
  }

  lemma EscapeGt(c: char)
    requires c == '>'
    ensures EscapeXml([c]) == "&gt;"
  {
    ReplaceOne(c, '&', "&amp;");
    ReplaceOne(c, '<', "&lt;");
    ReplaceOne(c, '>', "&gt;");
    ReplaceWithout("&gt;", "\"", "&quot;");
    ReplaceWithout("&gt;", "'", "&apos;");
  }

  lemma EscapeQuot(c: char)
    requires c == '"'
    ensures EscapeXml([c]) == "&quot;"
  {
    ReplaceOne(c, '&', "&amp;");
    ReplaceOne(c, '<', "&lt;");
    ReplaceOne(c, '>', "&gt;");
    ReplaceOne(c, '"', "&quot;");
    ReplaceWithout("&quot;", "'", "&apos;");
  }

  lemma EscapeApos(c: char)
    requires c == '\''
    ensures EscapeXml([c]) == "&apos;"
  {
    ReplaceOne(c, '&', "&amp;");
    ReplaceOne(c, '<', "&lt;");
    ReplaceOne(c, '>', "&gt;");
    ReplaceOne(c, '"', "&quot;");
    ReplaceOne(c, '\'', "&apos;");
  }

  lemma EscapePlain(c: char)
    requires c != '&' && c != '<' && c != '>' && c != '"' && c != '\''
    ensures EscapeXml([c]) == [c]
  {
    ReplaceOne(c, '&', "&amp;");
    ReplaceOne(c, '<', "&lt;");
    ReplaceOne(c, '>', "&gt;");
    ReplaceOne(c, '"', "&quot;");
    ReplaceOne(c, '\'', "&apos;");
  }

  lemma EscapeXmlChar(c: char)
    ensures EscapeXml([c]) == EscapeChar(c)
  {
    if c == '&' {
      EscapeAmp(c);
    } else if c == '<' {
      EscapeLt(c);
    } else if c == '>' {
      EscapeGt(c);
    } else if c == '"' {
      EscapeQuot(c);
    } else if c == '\'' {
      EscapeApos(c);
    } else {
      EscapePlain(c);
    }
  }

  /** The chain of replacements escapes each character on its own: `&` is never escaped twice. */
  lemma {:induction false} EscapeXmlPerChar(s: string)
    ensures EscapeXml(s) == EscapeChars(s)
    decreases |s|
  {
    if s == [] {
      assert EscapeXml(s) == [];
    } else {
      assert s == [s[0]] + s[1..];
      EscapeXmlConcat([s[0]], s[1..]);
      EscapeXmlChar(s[0]);
      EscapeXmlPerChar(s[1..]);
    }
  }

  /** No markup character survives. */
  lemma {:induction false} EscapedHasNoMarkup(s: string)
    ensures var r := EscapeXml(s); '<' !in r && '>' !in r && '"' !in r && '\'' !in r
    decreases |s|
  {
    EscapeXmlPerChar(s);
    EscapeCharsNoMarkup(s);
  }

  lemma {:induction false} EscapeCharsNoMarkup(s: string)
    ensures var r := EscapeChars(s); '<' !in r && '>' !in r && '"' !in r && '\'' !in r
    decreases |s|
  {
    if s != [] {
      EscapeCharsNoMarkup(s[1..]);
      EscapeCharNoMarkup(s[0]);
      var e, rest := EscapeChar(s[0]), EscapeChars(s[1..]);
      assert EscapeChars(s) == e + rest;
      forall x | x in e + rest ensures x in e || x in rest {
      }
    }
  }

  lemma EscapeCharNoMarkup(c: char)
    ensures var e := EscapeChar(c); '<' !in e && '>' !in e && '"' !in e && '\'' !in e
  {
  }

  /** The text at `i` starts with one of the five entities. */
  predicate EntityAt(r: string, i: int)
    requires 0 <= i <= |r|
  {
    var t := r[i..];
    StartsWith(t, "&amp;") || StartsWith(t, "&lt;") || StartsWith(t, "&gt;")
    || StartsWith(t, "&quot;") || StartsWith(t, "&apos;")
  }

  /** Every `&` of `r` starts an entity. */
  predicate AmpersandsEscaped(r: string) {
    forall i :: 0 <= i < |r| && r[i] == '&' ==> EntityAt(r, i)
  }

  /** Every `&` of the output starts an entity. */
  lemma EscapedAmpersands(s: string)
    ensures AmpersandsEscaped(EscapeXml(s))
  {
    EscapeXmlPerChar(s);
    EscapeCharsAmpersands(s);
  }

  lemma {:induction false} EscapeCharsAmpersands(s: string)
    ensures AmpersandsEscaped(EscapeChars(s))
    decreases |s|
  {
    if s != [] {
      EscapeCharsAmpersands(s[1..]);
      var e := EscapeChar(s[0]);
      var t := EscapeChars(s[1..]);
      var r := e + t;
      assert r == EscapeChars(s);
      forall i | 0 <= i < |r| && r[i] == '&' ensures EntityAt(r, i) {
        if i < |e| {
          assert i == 0;
          assert r[i..] == e + t;
          assert r[i..][..|e|] == e;
        } else {
          var j := i - |e|;
          assert r[i..] == t[j..];
          assert t[j] == '&';
          assert EntityAt(t, j);
        }
      }
    }
  }

  /** Reads the five entities back; None on an `&` that starts none of them. */
  function UnescapeXml(r: string): Option<string>
    decreases |r|
  {
    if r == [] then Some([])
    else if r[0] != '&' then AddFront(r[0], UnescapeXml(r[1..]))
    else if StartsWith(r, "&amp;") then AddFront('&', UnescapeXml(r[5..]))
    else if StartsWith(r, "&lt;") then AddFront('<', UnescapeXml(r[4..]))
    else if StartsWith(r, "&gt;") then AddFront('>', UnescapeXml(r[4..]))
    else if StartsWith(r, "&quot;") then AddFront('"', UnescapeXml(r[6..]))
    else if StartsWith(r, "&apos;") then AddFront('\'', UnescapeXml(r[6..]))
    else None
  }

  function AddFront(c: char, o: Option<string>): Option<string> {
    match o
    case None => None
    case Some(t) => Some([c] + t)
  }

  lemma UnescapeEntity(c: char, rest: string)
    ensures UnescapeXml(EscapeChar(c) + rest) == AddFront(c, UnescapeXml(rest))
  {
    var r := EscapeChar(c) + rest;
    var e := EscapeChar(c);
    assert r[..|e|] == e;
    assert r[|e|..] == rest;
    if c == '<' || c == '>' {
      assert r[1] != 'a';
      assert !StartsWith(r, "&amp;");
    } else if c == '"' {
      assert r[1] == 'q';
      assert !StartsWith(r, "&amp;") && !StartsWith(r, "&lt;") && !StartsWith(r, "&gt;");
    } else if c == '\'' {
      assert r[1] == 'a' && r[2] == 'p';
      assert !StartsWith(r, "&amp;") && !StartsWith(r, "&lt;") && !StartsWith(r, "&gt;") && !StartsWith(r, "&quot;");
    } else if c != '&' {
      assert r[0] == c;
      assert r[1..] == rest;
    }
  }

  /** Decoding the five entities recovers the input. */
  lemma {:induction false} UnescapeEscape(s: string)
    ensures UnescapeXml(EscapeXml(s)) == Some(s)
    decreases |s|
  {
    EscapeXmlPerChar(s);
    if s != [] {
      EscapeXmlPerChar(s[1..]);
      UnescapeEscape(s[1..]);
      UnescapeEntity(s[0], EscapeChars(s[1..]));
      assert [s[0]] + s[1..] == s;
    }
  }

  // ---- Dates ----

  /** `format_date`: `%b %d, %Y`, or the input itself where `strptime` raises. */
  function FormatDate(s: string): string {
    match ParseIso(s)
    case None => s
    case Some(d) =>
      ParseIsoValid(s);
      MonthAbbr(d.month) + " " + Pad2(d.day) + ", " + Pad4(d.year)
  }

  /** `format_rfc822_date`: `%a, %d %b %Y 00:00:00 GMT`, or the input itself where `strptime` raises. */
  function FormatRfc822Date(s: string): string {
    match ParseIso(s)
    case None => s
    case Some(d) =>
      ParseIsoValid(s);
      WeekdayAbbr(Weekday(d)) + ", " + Pad2(d.day) + " " + MonthAbbr(d.month) + " " + Pad4(d.year) + " 00:00:00 GMT"
  }

  /** The display date is the input exactly when the input is not a `%Y-%m-%d` date. */
  lemma FormatDateFallback(s: string)
    ensures FormatDate(s) == s <==> ParseIso(s).None?
  {
    if ParseIso(s).Some? {
      var d := ParseIso(s).value;
      ParseIsoValid(s);
      assert FormatDate(s)[0] == MonthAbbr(d.month)[0];
      assert IsDigit(s[0]);
    }
  }

  /** The feed date is the input exactly when the input is not a `%Y-%m-%d` date. */
  lemma FormatRfc822Fallback(s: string)
    ensures FormatRfc822Date(s) == s <==> ParseIso(s).None?
  {
    if ParseIso(s).Some? {
      var d := ParseIso(s).value;
      ParseIsoValid(s);
      assert FormatRfc822Date(s)[0] == WeekdayAbbr(Weekday(d))[0];
      assert IsDigit(s[0]);
    }
  }

  /** Every representable date printed as `%Y-%m-%d` is reformatted from its own fields. */
  lemma FormatIsoDate(d: Date)
    requires Valid(d)
    ensures FormatDate(IsoString(d)) == MonthAbbr(d.month) + " " + Pad2(d.day) + ", " + Pad4(d.year)
    ensures FormatRfc822Date(IsoString(d))
         == WeekdayAbbr(Weekday(d)) + ", " + Pad2(d.day) + " " + MonthAbbr(d.month) + " " + Pad4(d.year) + " 00:00:00 GMT"
  {
    IsoRoundTrip(d);
  }

  lemma ExampleIso(s: string, d: Date)
    requires s == "2026-02-16" && d == Date(2026, 2, 16)
    ensures Valid(d) && s == IsoString(d)
  {
    assert Pad2(20) == "20" && Pad2(26) == "26";
    assert Pad2(2) == "02" && Pad2(16) == "16";
  }

  lemma ExampleWeekday(d: Date)
    requires d == Date(2026, 2, 16)
    ensures Valid(d) && Weekday(d) == 0
  {
    DaysBeforeYearClosedForm(2026);
    assert Ordinal(d) == 739663;
  }

  lemma ExamplePieces(d: Date)
    requires d == Date(2026, 2, 16)
    ensures Pad2(d.day) == "16" && Pad4(d.year) == "2026"
    ensures MonthAbbr(d.month) == "Feb" && WeekdayAbbr(0) == "Mon"
  {
    assert Pad2(20) == "20" && Pad2(26) == "26";
  }

  lemma ExampleRfcText(w: string, day: string, mon: string, year: string)
    requires w == "Mon" && day == "16" && mon == "Feb" && year == "2026"
    ensures w + ", " + day + " " + mon + " " + year + " 00:00:00 GMT" == "Mon, 16 Feb 2026 00:00:00 GMT"
  {
  }

  lemma ExampleDisplayText(mon: string, day: string, year: string)
    requires mon == "Feb" && day == "16" && year == "2026"
    ensures mon + " " + day + ", " + year == "Feb 16, 2026"
  {
  }

  /** 16 February 2026 was a Monday. */
  lemma Rfc822Example(s: string)
    requires s == "2026-02-16"
    ensures FormatRfc822Date(s) == "Mon, 16 Feb 2026 00:00:00 GMT"
    ensures FormatDate(s) == "Feb 16, 2026"
  {
    var d := Date(2026, 2, 16);
    ExampleIso(s, d);
    ExampleWeekday(d);
    ExamplePieces(d);
    FormatIsoDate(d);
    ExampleRfcText(WeekdayAbbr(Weekday(d)), Pad2(d.day), MonthAbbr(d.month), Pad4(d.year));
    ExampleDisplayText(MonthAbbr(d.month), Pad2(d.day), Pad4(d.year));
  }

  // ---- Index page and feed ----

  const SiteUrl: string := "https://bot.duyet.net"

  /** `meta.get(key, default)`. */
  function Get(meta: map<string, string>, key: string, default: string): string {
    if key in meta then meta[key] else default
  }

  /** The sort key of both lists: `x.get('date', '')`. */
  function DateKey(meta: map<string, string>): string {
    Get(meta, "date", "")
  }

  /** The posts as the index lists them: by date string, newest first, ties in input order. */
  function IndexOrder(posts: seq<map<string, string>>): (r: seq<map<string, string>>)
    ensures |r| == |posts|
  {
    SortDescLength(posts, DateKey);
    SortDesc(posts, DateKey)
  }

  /** The posts the feed lists: the first ten of the index order. */
  function FeedOrder(posts: seq<map<string, string>>): seq<map<string, string>> {
    Prefix(IndexOrder(posts), 10)
  }

  /** What one post card of the index shows. */
  datatype Card = Card(shownDate: string, href: string, title: string, description: string)

  /** What one `<item>` of the feed holds. */
  datatype Item = Item(title: string, link: string, guid: string, description: string, pubDate: string)

  function CardOf(meta: map<string, string>): Card {
    Card(FormatDate(DateKey(meta)), "posts/" + DateKey(meta) + ".html",
         Get(meta, "title", "Untitled"), Get(meta, "description", ""))
  }

  function ItemOf(meta: map<string, string>): Item {
    var link := SiteUrl + "/posts/" + DateKey(meta) + ".html";
    Item(EscapeXml(Get(meta, "title", "Untitled")), link, link,
         EscapeXml(Get(meta, "description", "")), FormatRfc822Date(DateKey(meta)))
  }

  /** The post list loop of `build_index`. */
  method IndexCards(posts: seq<map<string, string>>) returns (cards: seq<Card>)
    ensures |cards| == |posts|
    ensures forall i :: 0 <= i < |cards| ==> cards[i] == CardOf(IndexOrder(posts)[i])
  {
    var order := SortDesc(posts, DateKey);
    assert order == IndexOrder(posts);
    cards := [];
    var i := 0;
    while i < |order|
      invariant 0 <= i <= |order|
      invariant cards == MapSeq(CardOf, order[..i])
    {
      MapSeqSnoc(CardOf, order, i);
      cards := cards + [CardOf(order[i])];
      i := i + 1;
    }
    assert order[..i] == order;
    MapSeqAt(CardOf, order);
  }

  /** The item loop of `build_rss`. */
  method FeedItems(posts: seq<map<string, string>>) returns (items: seq<Item>)
    ensures |items| == |FeedOrder(posts)|
    ensures forall i :: 0 <= i < |items| ==> items[i] == ItemOf(FeedOrder(posts)[i])
  {
    var order := Prefix(SortDesc(posts, DateKey), 10);
    assert order == FeedOrder(posts);
    items := [];
    var i := 0;
    while i < |order|
      invariant 0 <= i <= |order|
      invariant items == MapSeq(ItemOf, order[..i])
    {
      MapSeqSnoc(ItemOf, order, i);
      items := items + [ItemOf(order[i])];
      i := i + 1;
    }
    assert order[..i] == order;
    MapSeqAt(ItemOf, order);
  }

  /** The index lists every post once, newest date first, and keeps the input order among equal dates. */
  lemma IndexOrderProperties(posts: seq<map<string, string>>)
    ensures multiset(IndexOrder(posts)) == multiset(posts)
    ensures forall i, j :: 0 <= i < j < |IndexOrder(posts)| ==>
      !Before(DateKey(IndexOrder(posts)[i]), DateKey(IndexOrder(posts)[j]))
    ensures forall k :: WithKey(IndexOrder(posts), DateKey, k) == WithKey(posts, DateKey, k)
  {
    SortDescProperties(posts, DateKey);
  }

  /**
   * The feed holds at most ten posts, min(10, number of posts) exactly; they are the
   * first ones of the index order, and no post left out has a later date than one kept.
   */
  lemma FeedOrderProperties(posts: seq<map<string, string>>)
    ensures |FeedOrder(posts)| <= 10
    ensures |FeedOrder(posts)| == if |posts| < 10 then |posts| else 10
    ensures FeedOrder(posts) == IndexOrder(posts)[..|FeedOrder(posts)|]
    ensures forall i, j :: 0 <= i < |FeedOrder(posts)| <= j < |posts| ==>
      !Before(DateKey(FeedOrder(posts)[i]), DateKey(IndexOrder(posts)[j]))
    ensures multiset(FeedOrder(posts)) <= multiset(posts)
    ensures SortedDesc(FeedOrder(posts), DateKey)
  {
    TopOfSorted(posts, DateKey, 10);
  }

  lemma ExampleDatesOrdered(a: string, b: string)
    requires a == "2026-02-14" && b == "2026-02-16"
    ensures Before(a, b)
  {
    assert a == "2026-02-1" + "4" && b == "2026-02-1" + "6";
    BeforeCommonPrefix("2026-02-1", "4", "6");
  }

  /** A post dated 16 February lists before one dated 14 February, in the index and in the feed. */
  lemma IndexExample(older: map<string, string>, newer: map<string, string>)
    requires older == map["date" := "2026-02-14", "title" := "Older"]
    requires newer == map["date" := "2026-02-16", "title" := "Newer"]
    ensures IndexOrder([older, newer]) == [newer, older]
    ensures FeedOrder([older, newer]) == [newer, older]
  {
    ExampleDatesOrdered(DateKey(older), DateKey(newer));
    assert [older, newer][1..] == [newer] && [newer][1..] == [];
    assert SortDesc([newer], DateKey) == Insert(newer, [], DateKey) == [newer];
    assert Insert(older, [newer], DateKey) == [newer] + Insert(older, [], DateKey);
    assert SortDesc([older, newer], DateKey) == [newer, older];
  }
}
