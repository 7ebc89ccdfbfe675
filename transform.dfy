/**
 * The text transform chain applied to copied text
 * (`SteeringTask._process_text_content`): replacement rules, then line
 * cleaning, then header/footer composition; and the custom inline buttons.
 */
module Transform {
  import opened Wrappers
  import opened PyStr
  import opened TaskConfigs
  import opened Filters

  // ---------------------------------------------------------------------------
  // Replacement rules (`_replace_text_content`)

  const Arrow: string := "->"

  /** `[r.strip() for r in parts if '->' in r]` */
  function ArrowEntries(parts: seq<string>): seq<string>
    decreases |parts|
  {
    if parts == [] then []
    else (if Contains(parts[0], Arrow) then [Strip(parts[0])] else []) + ArrowEntries(parts[1..])
  }

  /** One entry: split at its first `->`, strip both sides, replace every occurrence. */
  function ApplyEntry(entry: string, text: string): string {
    match IndexOf(entry, Arrow)
    case None => text
    case Some(i) => ReplaceAll(text, Strip(entry[..i]), Strip(entry[i + 2..]))
  }

  /** The entries applied one after the other, in list order. */
  function ApplyEntries(entries: seq<string>, text: string): string
    decreases |entries|
  {
    if entries == [] then text
    else ApplyEntry(entries[|entries| - 1], ApplyEntries(entries[..|entries| - 1], text))
  }

  /** What `_replace_text_content` returns for the `replacements` setting. */
  function ReplaceText(replacements: string, text: string): string {
    if replacements == [] then text
    else ApplyEntries(ArrowEntries(Split(replacements, ',')), text)
  }

  /** `_replace_text_content`: the loop that rewrites `text` rule by rule. */
  method ReplaceTextContent(c: SteeringTaskConfig, text: string) returns (r: string)
    ensures r == ReplaceText(c.replacements, text)
  {
    if c.replacements == [] {
      return text;
    }
    var entries := ArrowEntries(Split(c.replacements, ','));
    r := text;
    var i := 0;
    while i < |entries|
      invariant i <= |entries|
      invariant r == ApplyEntries(entries[..i], text)
    {
      var entry := entries[i];
      var k := IndexOf(entry, Arrow);
      if k.Some? {
        var old_, new_ := Strip(entry[..k.value]), Strip(entry[k.value + 2..]);
        r := ReplaceAll(r, old_, new_);
      }
      assert entries[..i + 1][..i] == entries[..i];
      i := i + 1;
    }
    assert entries[..i] == entries;
  }

  lemma ReplaceTextViaEntries(replacements: string, text: string)
    ensures ReplaceText(replacements, text) == ApplyEntries(ArrowEntries(Split(replacements, ',')), text)
  {
    if replacements == [] {
      assert Split(replacements, ',') == [[]];
      assert !Contains([], Arrow);
      assert ArrowEntries([[]]) == [];
    }
  }

  lemma {:induction false} ArrowEntriesAppend(a: seq<string>, b: seq<string>)
    ensures ArrowEntries(a + b) == ArrowEntries(a) + ArrowEntries(b)
    decreases |a|
  {
    if a != [] {
      assert (a + b)[1..] == a[1..] + b;
      ArrowEntriesAppend(a[1..], b);
    } else {
      assert a + b == b;
    }
  }

  lemma {:induction false} ApplyEntriesAppend(a: seq<string>, b: seq<string>, text: string)
    ensures ApplyEntries(a + b, text) == ApplyEntries(b, ApplyEntries(a, text))
    decreases |b|
  {
    if b == [] {
      assert a + b == a;
    } else {
      assert (a + b)[..|a + b| - 1] == a + b[..|b| - 1];
      ApplyEntriesAppend(a, b[..|b| - 1], text);
    }
  }

  /**
   * Rules are applied sequentially in list order: the rules before a comma
   * run first, and the rules after it see their output.
   */
  lemma RulesApplyInOrder(a: string, b: string, text: string)
    ensures ReplaceText(a + "," + b, text) == ReplaceText(b, ReplaceText(a, text))
  {
    SplitAppend(a, b, ',');
    ArrowEntriesAppend(Split(a, ','), Split(b, ','));
    ApplyEntriesAppend(ArrowEntries(Split(a, ',')), ArrowEntries(Split(b, ',')), text);
    ReplaceTextViaEntries(a + "," + b, text);
    ReplaceTextViaEntries(a, text);
    ReplaceTextViaEntries(b, ReplaceText(a, text));
  }

  /** An entry without `->` is ignored. */
  lemma EntryWithoutArrowIgnored(entry: string, text: string)
    requires ',' !in entry && !Contains(entry, Arrow)
    ensures ReplaceText(entry, text) == text
  {
    SplitNoSep(entry, ',');
    ReplaceTextViaEntries(entry, text);
  }

  /**
   * A setting with a single rule: the stripped entry is split at its first
   * `->`, both sides are stripped again, and every occurrence of the left
   * side in the text is replaced by the right side.
   */
  lemma OneRule(entry: string, text: string)
    requires ',' !in entry && IndexOf(Strip(entry), Arrow).Some?
    ensures var e, i := Strip(entry), IndexOf(Strip(entry), Arrow).value;
      ReplaceText(entry, text) == ReplaceAll(text, Strip(e[..i]), Strip(e[i + 2..]))
  {
    ContainsInStrip(entry, Arrow);
    assert entry != [];
    SplitNoSep(entry, ',');
    assert [entry][1..] == [];
    assert ArrowEntries([entry]) == [Strip(entry)];
    ReplaceTextViaEntries(entry, text);
    assert [Strip(entry)][..0] == [];
  }

  /**
   * Chained rules such as `a->b,b->c` turn `a` into `c`: the second rule
   * sees the first one's output.
   */
  lemma ChainedRules(x: char, y: char, z: char)
    requires Plain(x) && Plain(y) && Plain(z)
    ensures ReplaceText([x, '-', '>', y, ',', y, '-', '>', z], [x]) == [z]
  {
    var r1, r2 := [x, '-', '>', y], [y, '-', '>', z];
    assert [x, '-', '>', y, ',', y, '-', '>', z] == r1 + "," + r2;
    RulesApplyInOrder(r1, r2, [x]);
    CharRule(x, y);
    CharRule(y, z);
  }

  /** A character that is neither blank, a comma nor a dash. */
  predicate Plain(x: char) {
    !IsSpace(x) && x != ',' && x != '-'
  }

  /** The rule `x->y` on one character each turns `x` into `y`. */
  lemma CharRule(x: char, y: char)
    requires Plain(x) && Plain(y)
    ensures ReplaceText([x, '-', '>', y], [x]) == [y]
  {
    var rule := [x, '-', '>', y];
    StripUnpadded(rule);
    assert !(Arrow <= rule);
    assert IndexOf(rule[1..], Arrow) == Some(0);
    assert IndexOf(rule, Arrow) == Some(1);
    OneRule(rule, [x]);
    StripUnpadded([x]);
    StripUnpadded([y]);
    assert rule[..1] == [x] && rule[3..] == [y];
    assert [x][1..] == [];
    assert ReplaceAll([], [x], [y]) == [];
    assert ReplaceAll([x], [x], [y]) == [y] + ReplaceAll([x][1..], [x], [y]);
  }

  // ---------------------------------------------------------------------------
  // Line cleaning (`_clean_message_text`)

  /**
   * The two regular-expression substitutions the source performs are not
   * modelled: `links` stands for removing URLs and `t.me/` links, `hashtags`
   * for removing `#word` tokens.
   */
  datatype Strippers = Strippers(links: string -> string, hashtags: string -> string)

  /** The characters of the class `[*_`~]`. */
  predicate Formatting(ch: char) {
    ch == '*' || ch == '_' || ch == '`' || ch == '~'
  }

  /** No character of `s` is a formatting character. */
  predicate Unformatted(s: string) {
    forall i :: 0 <= i < |s| ==> !Formatting(s[i])
  }

  /** `re.sub(r'[*_`~]', '', line)` */
  function StripFormatting(line: string): (r: string)
    ensures |r| <= |line|
    ensures Unformatted(r)
    ensures Unformatted(line) ==> r == line
    decreases |line|
  {
    if line == [] then []
    else (if Formatting(line[0]) then [] else [line[0]]) + StripFormatting(line[1..])
  }

  /**
   * Stripping works character by character: the other characters survive,
   * in their order.
   */
  lemma {:induction false} StripFormattingAppend(a: string, b: string)
    ensures StripFormatting(a + b) == StripFormatting(a) + StripFormatting(b)
    decreases |a|
  {
    if a == [] {
      assert a + b == b;
    } else {
      var t := a[1..];
      assert a == [a[0]] + t && a + b == [a[0]] + (t + b);
      StripFormattingCons(a[0], t);
      StripFormattingCons(a[0], t + b);
      StripFormattingAppend(t, b);
    }
  }

  lemma StripFormattingCons(ch: char, s: string)
    ensures StripFormatting([ch] + s) == (if Formatting(ch) then [] else [ch]) + StripFormatting(s)
  {
    assert ([ch] + s)[0] == ch && ([ch] + s)[1..] == s;
  }

  /** A single character is removed exactly when it is a formatting character. */
  lemma StripFormattingOne(ch: char)
    ensures StripFormatting([ch]) == if Formatting(ch) then [] else [ch]
  {
    assert [ch][1..] == [];
  }

  /** A line the cleaner drops altogether. */
  predicate DropsLine(c: SteeringTaskConfig, line: string) {
    || (c.cleanEmptyLines && Strip(line) == [])
    || (c.cleanLinesWithWords && c.cleanWordsList != [] && AnyIn(Words(c.cleanWordsList), line))
  }

  /** A kept line after the enabled strippers, in the source's order. */
  function CleanLine(c: SteeringTaskConfig, rx: Strippers, line: string): string {
    var noLinks := if c.cleanLinks then rx.links(line) else line;
    var noTags := if c.cleanHashtags then rx.hashtags(noLinks) else noLinks;
    if c.cleanFormatting then StripFormatting(noTags) else noTags
  }

  /** The lines that survive, in their original order. */
  function KeptLines(c: SteeringTaskConfig, lines: seq<string>): (r: seq<string>)
    ensures |r| <= |lines|
    ensures forall i :: 0 <= i < |r| ==> r[i] in lines && !DropsLine(c, r[i])
    ensures forall i :: 0 <= i < |lines| && !DropsLine(c, lines[i]) ==> lines[i] in r
    decreases |lines|
  {
    if lines == [] then []
    else
      var kept := KeptLines(c, lines[..|lines| - 1]);
      KeptStep(c, lines, kept);
      kept + (if DropsLine(c, lines[|lines| - 1]) then [] else [lines[|lines| - 1]])
  }

  /** The contract of `KeptLines` carries over from all lines but the last to all lines. */
  lemma KeptStep(c: SteeringTaskConfig, lines: seq<string>, kept: seq<string>)
    requires lines != []
    requires var prefix := lines[..|lines| - 1];
      && |kept| <= |prefix|
      && (forall i :: 0 <= i < |kept| ==> kept[i] in prefix && !DropsLine(c, kept[i]))
      && (forall i :: 0 <= i < |prefix| && !DropsLine(c, prefix[i]) ==> prefix[i] in kept)
    ensures var last := lines[|lines| - 1];
      var r := kept + (if DropsLine(c, last) then [] else [last]);
      && |r| <= |lines|
      && (forall i :: 0 <= i < |r| ==> r[i] in lines && !DropsLine(c, r[i]))
      && (forall i :: 0 <= i < |lines| && !DropsLine(c, lines[i]) ==> lines[i] in r)
  {
    var prefix := lines[..|lines| - 1];
    assert lines == prefix + [lines[|lines| - 1]];
    forall i | 0 <= i < |lines| - 1 ensures lines[i] == prefix[i] {
    }
  }

  /** Every surviving line is kept once, in its original order. */
  lemma {:induction false} KeptLinesAppend(c: SteeringTaskConfig, a: seq<string>, b: seq<string>)
    ensures KeptLines(c, a + b) == KeptLines(c, a) + KeptLines(c, b)
    decreases |b|
  {
    if b == [] {
      assert a + b == a;
    } else {
      var init := b[..|b| - 1];
      assert (a + b)[..|a + b| - 1] == a + init && (a + b)[|a + b| - 1] == b[|b| - 1];
      KeptLinesAppend(c, a, init);
    }
  }

  /** A single line survives exactly when the cleaner does not drop it. */
  lemma KeptLinesOne(c: SteeringTaskConfig, line: string)
    ensures KeptLines(c, [line]) == if DropsLine(c, line) then [] else [line]
  {
    assert [line][..0] == [];
  }

  function CleanAll(c: SteeringTaskConfig, rx: Strippers, lines: seq<string>): seq<string> {
    seq(|lines|, i requires 0 <= i < |lines| => CleanLine(c, rx, lines[i]))
  }

  function CleanLines(c: SteeringTaskConfig, rx: Strippers, lines: seq<string>): seq<string> {
    CleanAll(c, rx, KeptLines(c, lines))
  }

  /** What `_clean_message_text` returns. */
  function CleanText(c: SteeringTaskConfig, rx: Strippers, text: string): string {
    if text == [] then text else Join(CleanLines(c, rx, Split(text, '\n')), "\n")
  }

  /** `_clean_message_text`: the loop that appends each surviving line to `cleaned_lines`. */
  method CleanMessageText(c: SteeringTaskConfig, rx: Strippers, text: string) returns (r: string)
    ensures r == CleanText(c, rx, text)
  {
    if text == [] {
      return text;
    }
    var lines := Split(text, '\n');
    var cleaned: seq<string> := [];
    var i := 0;
    while i < |lines|
      invariant i <= |lines|
      invariant cleaned == CleanLines(c, rx, lines[..i])
    {
      var line := lines[i];
      assert lines[..i + 1] == lines[..i] + [line];
      CleanLinesSnoc(c, rx, lines[..i], line);
      var skip := false;
      if c.cleanEmptyLines && Strip(line) == [] {
        skip := true;
      } else if c.cleanLinesWithWords && c.cleanWordsList != [] {
        var cleanWords := Words(c.cleanWordsList);
        if AnyIn(cleanWords, line) {
          skip := true;
        }
      }
      if !skip {
        if c.cleanLinks {
          line := rx.links(line);
        }
        if c.cleanHashtags {
          line := rx.hashtags(line);
        }
        if c.cleanFormatting {
          line := StripFormatting(line);
        }
        assert line == CleanLine(c, rx, lines[i]);
        cleaned := cleaned + [line];
      }
      assert skip == DropsLine(c, lines[i]);
      i := i + 1;
    }
    assert lines[..i] == lines;
    r := Join(cleaned, "\n");
  }

  /** Cleaning one more line appends its cleaned form, unless the line is dropped. */
  lemma CleanLinesSnoc(c: SteeringTaskConfig, rx: Strippers, lines: seq<string>, line: string)
    ensures CleanLines(c, rx, lines + [line])
         == CleanLines(c, rx, lines) + (if DropsLine(c, line) then [] else [CleanLine(c, rx, line)])
  {
    var all := lines + [line];
    assert all[..|all| - 1] == lines && all[|all| - 1] == line;
    var kept := KeptLines(c, lines);
    var tail := if DropsLine(c, line) then [] else [line];
    assert KeptLines(c, all) == kept + tail;
    assert CleanAll(c, rx, kept + tail) == CleanAll(c, rx, kept) + CleanAll(c, rx, tail);
  }

  /** Cleaning never produces more lines than the text had. */
  lemma CleanLinesNeverMore(c: SteeringTaskConfig, rx: Strippers, lines: seq<string>)
    ensures |CleanLines(c, rx, lines)| <= |lines|
  {
  }

  /** With `clean_empty_lines`, no whitespace-only line survives. */
  lemma BlankLinesDropped(c: SteeringTaskConfig, lines: seq<string>)
    requires c.cleanEmptyLines
    ensures forall i :: 0 <= i < |KeptLines(c, lines)| ==> !Blank(KeptLines(c, lines)[i])
  {
    var kept := KeptLines(c, lines);
    forall i | 0 <= i < |kept| ensures !Blank(kept[i]) {
      StripEmptyIffBlank(kept[i]);
    }
  }

  /** With `clean_lines_with_words`, no surviving line contains a listed word. */
  lemma WordLinesDropped(c: SteeringTaskConfig, lines: seq<string>, w: string)
    requires c.cleanLinesWithWords && w in Words(c.cleanWordsList)
    ensures forall i :: 0 <= i < |KeptLines(c, lines)| ==> !Contains(KeptLines(c, lines)[i], w)
  {
    WordsOfEmpty();
  }

  predicate CleaningOff(c: SteeringTaskConfig) {
    !c.cleanEmptyLines && !c.cleanLinesWithWords && !c.cleanLinks && !c.cleanHashtags && !c.cleanFormatting
  }

  lemma {:induction false} KeptLinesAll(c: SteeringTaskConfig, lines: seq<string>)
    requires CleaningOff(c)
    ensures KeptLines(c, lines) == lines
    decreases |lines|
  {
    if lines != [] {
      KeptLinesAll(c, lines[..|lines| - 1]);
    }
  }

  /** With every cleaning flag off the cleaner returns its input unchanged. */
  lemma CleaningOffIsIdentity(c: SteeringTaskConfig, rx: Strippers, text: string)
    requires CleaningOff(c)
    ensures CleanText(c, rx, text) == text
  {
    if text != [] {
      var lines := Split(text, '\n');
      KeptLinesAll(c, lines);
      assert CleanLines(c, rx, lines) == lines;
      JoinSplit(text, '\n');
    }
  }

  /**
   * Provided the two regular-expression strippers never introduce a line
   * break (deleting matches cannot), the cleaned text has no more lines than
   * the input.
   */
  lemma LineCountNeverGrows(c: SteeringTaskConfig, rx: Strippers, text: string)
    requires forall s :: '\n' !in s ==> '\n' !in rx.links(s)
    requires forall s :: '\n' !in s ==> '\n' !in rx.hashtags(s)
    ensures |Split(CleanText(c, rx, text), '\n')| <= |Split(text, '\n')|
  {
    if text == [] {
      return;
    }
    var lines := Split(text, '\n');
    var out := CleanLines(c, rx, lines);
    var kept := KeptLines(c, lines);
    forall i | 0 <= i < |out| ensures '\n' !in out[i] {
      assert kept[i] in lines;
      var line := kept[i];
      var noLinks := if c.cleanLinks then rx.links(line) else line;
      var noTags := if c.cleanHashtags then rx.hashtags(noLinks) else noLinks;
      assert '\n' !in noTags;
      if c.cleanFormatting {
        var f := StripFormatting(noTags);
        forall j | 0 <= j < |f| ensures f[j] != '\n' {
          StripFormattingFrom(noTags, j);
        }
      }
    }
    if out != [] {
      SplitJoin(out, '\n');
    } else {
      assert Split([], '\n') == [[]];
    }
  }

  /** Every character of the stripped line comes from the line. */
  lemma {:induction false} StripFormattingFrom(line: string, j: nat)
    requires j < |StripFormatting(line)|
    ensures StripFormatting(line)[j] in line
    decreases |line|
  {
    var rest := StripFormatting(line[1..]);
    if Formatting(line[0]) {
      StripFormattingFrom(line[1..], j);
    } else if j > 0 {
      StripFormattingFrom(line[1..], j - 1);
    }
  }

  // ---------------------------------------------------------------------------
  // Header and footer (`_add_header_footer`)

  predicate HeaderOn(c: SteeringTaskConfig) {
    c.headerEnabled && c.headerText != []
  }

  predicate FooterOn(c: SteeringTaskConfig) {
    c.footerEnabled && c.footerText != []
  }

  const Blank2: string := "\n\n"

  /** The present parts in header, body, footer order. */
  function Parts(c: SteeringTaskConfig, body: string): seq<string> {
    (if HeaderOn(c) then [c.headerText] else [])
    + (if body != [] then [body] else [])
    + (if FooterOn(c) then [c.footerText] else [])
  }

  function AddHeaderFooter(c: SteeringTaskConfig, body: string): string {
    Join(Parts(c, body), Blank2)
  }

  /** Header, body and footer all present: `"H\n\nB\n\nF"`. */
  lemma ComposeAll(c: SteeringTaskConfig, body: string)
    requires HeaderOn(c) && FooterOn(c) && body != []
    ensures AddHeaderFooter(c, body) == c.headerText + "\n\n" + body + "\n\n" + c.footerText
  {
    var ps := Parts(c, body);
    assert ps == [c.headerText, body, c.footerText];
    assert ps[1..] == [body, c.footerText];
    assert ps[1..][1..] == [c.footerText];
    assert Join(ps[1..], Blank2) == body + Blank2 + c.footerText;
    assert Join(ps, Blank2) == c.headerText + Blank2 + (body + Blank2 + c.footerText);
  }

  /** With header and footer off the body comes back unchanged. */
  lemma ComposeNone(c: SteeringTaskConfig, body: string)
    requires !HeaderOn(c) && !FooterOn(c)
    ensures AddHeaderFooter(c, body) == body
  {
  }

  /** An enabled header starts the text and an enabled footer ends it. */
  lemma HeaderFirstFooterLast(c: SteeringTaskConfig, body: string)
    ensures HeaderOn(c) ==> c.headerText <= AddHeaderFooter(c, body)
    ensures FooterOn(c) ==> EndsWith(AddHeaderFooter(c, body), c.footerText)
  {
    var ps := Parts(c, body);
    if FooterOn(c) {
      JoinEndsWithLast(ps, Blank2);
    }
  }

  predicate EndsWith(s: string, suffix: string) {
    |suffix| <= |s| && s[|s| - |suffix|..] == suffix
  }

  lemma {:induction false} JoinEndsWithLast(ps: seq<string>, sep: string)
    requires ps != []
    ensures EndsWith(Join(ps, sep), ps[|ps| - 1])
    decreases |ps|
  {
    if |ps| > 1 {
      JoinEndsWithLast(ps[1..], sep);
    }
  }

  // ---------------------------------------------------------------------------
  // The whole chain (`_process_text_content`)

  function ProcessText(c: SteeringTaskConfig, rx: Strippers, text: string): string {
    if text == [] then text
    else
      var replaced := if c.replacerEnabled && c.replacements != [] then ReplaceText(c.replacements, text) else text;
      AddHeaderFooter(c, CleanText(c, rx, replaced))
  }

  /** `_process_text_content`: replacement, then cleaning, then header and footer. */
  method ProcessTextContent(c: SteeringTaskConfig, rx: Strippers, text: string) returns (r: string)
    ensures r == ProcessText(c, rx, text)
  {
    if text == [] {
      return text;
    }
    r := text;
    if c.replacerEnabled && c.replacements != [] {
      r := ReplaceTextContent(c, r);
    }
    r := CleanMessageText(c, rx, r);
    r := AddHeaderFooter(c, r);
  }

  /** An empty text bypasses the whole chain, header and footer included. */
  lemma EmptyTextStaysEmpty(c: SteeringTaskConfig, rx: Strippers)
    ensures ProcessText(c, rx, []) == []
  {
  }

  /** With replacement, cleaning, header and footer all off, the text is unchanged. */
  lemma ProcessTextAllOff(c: SteeringTaskConfig, rx: Strippers, text: string)
    requires !c.replacerEnabled && CleaningOff(c) && !HeaderOn(c) && !FooterOn(c)
    ensures ProcessText(c, rx, text) == text
  {
    if text != [] {
      CleaningOffIsIdentity(c, rx, text);
    }
  }

  // ---------------------------------------------------------------------------
  // Custom buttons (`_create_inline_buttons`)

  datatype Button = UrlButton(text: string, url: string)

  /** A button is rendered only when it has both a label and a URL. */
  predicate Complete(text: string, url: string) {
    text != [] && url != []
  }

  /** The button a label and URL pair stands for, if it is shown at all. */
  function Shown(text: string, url: string): seq<Button> {
    if Complete(text, url) then [UrlButton(text, url)] else []
  }

  /** The buttons of all rows, row after row. */
  function Flatten(rows: seq<seq<Button>>): seq<Button>
    decreases |rows|
  {
    if rows == [] then [] else rows[0] + Flatten(rows[1..])
  }

  /** Buttons 1 and 2 share the first row; button 3 gets a row of its own. */
  function InlineButtons(c: SteeringTaskConfig): (r: Option<seq<seq<Button>>>)
    ensures r.None? <==> !Complete(c.button1Text, c.button1Url) && !Complete(c.button2Text, c.button2Url) && !Complete(c.button3Text, c.button3Url)
    ensures r.Some? ==> 1 <= |r.value| <= 2 && forall i :: 0 <= i < |r.value| ==> 1 <= |r.value[i]| <= 2
    ensures r.Some? ==> forall i, j :: 0 <= i < |r.value| && 0 <= j < |r.value[i]| ==> Complete(r.value[i][j].text, r.value[i][j].url)
    ensures r.Some? && Complete(c.button3Text, c.button3Url) ==> r.value[|r.value| - 1] == [UrlButton(c.button3Text, c.button3Url)]
    ensures r.Some? && Complete(c.button1Text, c.button1Url) ==> r.value[0][0] == UrlButton(c.button1Text, c.button1Url)
    ensures r.Some? && Complete(c.button2Text, c.button2Url) ==> UrlButton(c.button2Text, c.button2Url) in r.value[0]
    ensures r.Some? ==> Flatten(r.value) == Shown(c.button1Text, c.button1Url) + Shown(c.button2Text, c.button2Url) + Shown(c.button3Text, c.button3Url)
    ensures r.Some? && (Complete(c.button1Text, c.button1Url) || Complete(c.button2Text, c.button2Url)) ==>
      r.value[0] == Shown(c.button1Text, c.button1Url) + Shown(c.button2Text, c.button2Url)
    ensures r.Some? && !Complete(c.button1Text, c.button1Url) && !Complete(c.button2Text, c.button2Url) ==>
      r.value == [[UrlButton(c.button3Text, c.button3Url)]]
    ensures r.Some? ==> (|r.value| == 2 <==>
      (Complete(c.button1Text, c.button1Url) || Complete(c.button2Text, c.button2Url)) && Complete(c.button3Text, c.button3Url))
  {
    var row1 :=
      (if Complete(c.button1Text, c.button1Url) then [UrlButton(c.button1Text, c.button1Url)] else [])
      + (if Complete(c.button2Text, c.button2Url) then [UrlButton(c.button2Text, c.button2Url)] else []);
    var rows :=
      (if row1 != [] then [row1] else [])
      + (if Complete(c.button3Text, c.button3Url) then [[UrlButton(c.button3Text, c.button3Url)]] else []);
    assert Flatten(rows) == row1 + Shown(c.button3Text, c.button3Url) by {
      if row1 != [] {
        assert rows[1..] == (if Complete(c.button3Text, c.button3Url) then [[UrlButton(c.button3Text, c.button3Url)]] else []);
      }
      if Complete(c.button3Text, c.button3Url) {
        var last := [[UrlButton(c.button3Text, c.button3Url)]];
        assert Flatten(last) == last[0] + Flatten(last[1..]);
      }
    }
    if rows == [] then None else Some(rows)
  }
}
