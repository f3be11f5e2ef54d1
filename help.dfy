/** The help renderer (`helpText` and `helpTextOptionName` in commando.go):
    a pure function from the program's name, description, version and
    option list to the text printed for -h / --help. The text is built as
    `helpText` builds it, by appending segments one after another. */
module Help {
  import opened Options

  /** Width of the option-name column (the `%-40s` verb). */
  const NameWidth: nat := 40

  /** `n` space characters. */
  function Spaces(n: nat): string
  {
    seq(n, _ => ' ')
  }

  /** Go's `%-Ns`: left-justify `s` in a field of `width` characters,
      padding with spaces on the right and never truncating. A `char`
      stands for one rune, the unit in which Go counts the width. */
  function PadRight(s: string, width: nat): (r: string)
    ensures |r| == if |s| < width then width else |s|
    ensures r[..|s|] == s
    ensures forall i :: |s| <= i < |r| ==> r[i] == ' '
  {
    s + Spaces(if |s| < width then width - |s| else 0)
  }

  // ---------------------------------------------------------------------
  // Joining segments

  /** `piece` occurs in `h` starting at index `start`. */
  predicate At(h: string, start: nat, piece: string)
  {
    start + |piece| <= |h| && h[start..start + |piece|] == piece
  }

  /** Where each of three concatenated strings sits. */
  lemma AtParts(a: string, b: string, c: string)
    ensures At(a + b + c, 0, a)
    ensures At(a + b + c, |a|, b)
    ensures At(a + b + c, |a| + |b|, c)
  {
    var h := a + b + c;
    assert h[..|a|] == a;
    assert h[|a|..|a| + |b|] == b;
    assert h[|a| + |b|..|a| + |b| + |c|] == c;
  }

  /** A piece of a piece is a piece of the whole. */
  lemma AtWithin(h: string, p: nat, piece: string, q: nat, sub: string)
    requires At(h, p, piece) && At(piece, q, sub)
    ensures At(h, p + q, sub)
  {
    forall j | 0 <= j < |sub|
      ensures h[p + q + j] == sub[j]
    {
      assert sub[j] == piece[q..q + |sub|][j] == piece[q + j];
      assert piece[q + j] == h[p..p + |piece|][q + j];
    }
    assert h[p + q..p + q + |sub|] == sub;
  }

  /** A piece of the middle string is a piece of the whole, shifted. */
  lemma AtShift(a: string, b: string, c: string, p: nat, piece: string)
    requires At(b, p, piece)
    ensures At(a + b + c, |a| + p, piece)
  {
    AtParts(a, b, c);
    AtWithin(a + b + c, |a|, b, p, piece);
  }

  /** Where the three parts of the first of three strings sit. */
  lemma AtPartsOfFirst(a1: string, a2: string, a3: string, b: string, c: string)
    ensures At(a1 + a2 + a3 + b + c, 0, a1)
    ensures At(a1 + a2 + a3 + b + c, |a1|, a2)
    ensures At(a1 + a2 + a3 + b + c, |a1| + |a2|, a3)
  {
    var a := a1 + a2 + a3;
    AtParts(a, b, c);
    AtParts(a1, a2, a3);
    AtWithin(a + b + c, 0, a, 0, a1);
    AtWithin(a + b + c, 0, a, |a1|, a2);
    AtWithin(a + b + c, 0, a, |a1| + |a2|, a3);
  }

  /** Where the two parts of the last of three strings sit. */
  lemma AtPartsOfLast(a: string, b: string, c1: string, c2: string)
    ensures At(a + b + (c1 + c2), |a| + |b|, c1)
    ensures At(a + b + (c1 + c2), |a| + |b| + |c1|, c2)
    ensures |a + b + (c1 + c2)| == |a| + |b| + |c1| + |c2|
  {
    AtParts(a, b, c1 + c2);
    AtParts(c1, c2, "");
    assert c1 + c2 + "" == c1 + c2;
    AtWithin(a + b + (c1 + c2), |a| + |b|, c1 + c2, 0, c1);
    AtWithin(a + b + (c1 + c2), |a| + |b|, c1 + c2, |c1|, c2);
  }

  /** The texts of `xs`, appended one after another in order, as a loop of
      `h += f(x)` builds them. */
  function Join<T>(xs: seq<T>, f: T -> string): string
  {
    if xs == [] then "" else Join(xs[..|xs| - 1], f) + f(xs[|xs| - 1])
  }

  /** One more element adds its text at the end. */
  lemma JoinSnoc<T>(xs: seq<T>, x: T, f: T -> string)
    ensures Join(xs + [x], f) == Join(xs, f) + f(x)
  {
    assert (xs + [x])[..|xs|] == xs;
  }

  /** Joining two runs of elements joins their texts. */
  lemma {:induction false} JoinAppend<T>(xs: seq<T>, ys: seq<T>, f: T -> string)
    ensures Join(xs + ys, f) == Join(xs, f) + Join(ys, f)
    decreases |ys|
  {
    if ys == [] {
      assert xs + ys == xs;
    } else {
      var n := |ys| - 1;
      assert (xs + ys)[..|xs + ys| - 1] == xs + ys[..n];
      JoinAppend(xs, ys[..n], f);
    }
  }

  /** The text of element `k` appears in the joined text right after the
      texts of the elements before it. */
  lemma JoinPartAt<T>(xs: seq<T>, f: T -> string, k: nat)
    requires k < |xs|
    ensures At(Join(xs, f), |Join(xs[..k], f)|, f(xs[k]))
  {
    var upTo := xs[..k + 1];
    assert xs == upTo + xs[k + 1..];
    assert upTo[..k] == xs[..k];
    JoinAppend(upTo, xs[k + 1..], f);
    AtParts(Join(xs[..k], f), f(xs[k]), Join(xs[k + 1..], f));
  }

  /** The same, with a text before and a text after the joined texts. */
  lemma JoinPartBetween<T>(a: string, xs: seq<T>, f: T -> string, c: string, k: nat)
    requires k < |xs|
    ensures At(a + Join(xs, f) + c, |a| + |Join(xs[..k], f)|, f(xs[k]))
  {
    JoinPartAt(xs, f, k);
    AtShift(a, Join(xs, f), c, |Join(xs[..k], f)|, f(xs[k]));
  }

  // ---------------------------------------------------------------------
  // The segments of the help text

  /** The `<mapKey>` placeholder that ends every rendered option name. */
  function Placeholder(mapKey: string): string
  {
    " <" + mapKey + ">"
  }

  /** `helpTextOptionName`: the flag forms of an option followed by its key.
      The four cases are the layouts the help text promises. */
  function OptionName(o: OptionDecl): (n: string)
    ensures o.shortOption != "" && o.longOption != "" ==>
              n == "-" + o.shortOption + ", " + "--" + o.longOption + Placeholder(o.mapKey)
    ensures o.shortOption != "" && o.longOption == "" ==>
              n == "-" + o.shortOption + Placeholder(o.mapKey)
    ensures o.shortOption == "" && o.longOption != "" ==>
              n == "--" + o.longOption + Placeholder(o.mapKey)
    ensures o.shortOption == "" && o.longOption == "" ==>
              n == Placeholder(o.mapKey)
  {
    var short := if o.shortOption != "" then "-" + o.shortOption else "";
    var sep := if o.shortOption != "" && o.longOption != "" then ", " else "";
    var long := if o.longOption != "" then "--" + o.longOption else "";
    short + sep + long + Placeholder(o.mapKey)
  }

  /** The name column and the description: `"  %-40s%s"`. */
  function OptionHead(o: OptionDecl): string
  {
    "  " + PadRight(OptionName(o), NameWidth) + o.description
  }

  /** The text after an option's description: the default value in quotes
      when there is one, then the line break. */
  function DefaultSuffix(defaultValue: string): string
  {
    if defaultValue != "" then " (default: \"" + defaultValue + "\")" + "\n" else "\n"
  }

  /** The help line of one option. */
  function OptionLine(o: OptionDecl): string
  {
    OptionHead(o) + DefaultSuffix(o.defaultValue)
  }

  /** Column (0-based) at which the description starts after the name
      `name`: two spaces of indent, then the name padded to at least
      `NameWidth`. */
  function DescriptionColumn(name: string): nat
  {
    2 + (if |name| < NameWidth then NameWidth else |name|)
  }

  /** The option lines, one per option in registration order. */
  function OptionLines(opts: seq<OptionDecl>): string
  {
    Join(opts, OptionLine)
  }

  function UsageLine(name: string): string
  {
    "Usage: " + name + " [options] [arguments]\n"
  }

  /** The description paragraph, present only for a non-empty description. */
  function DescriptionBlock(description: string): string
  {
    if description != "" then "\n" + description + "\n" else ""
  }

  const OptionsHeader: string := "\nOptions:\n"

  /** The `-v, --version` line, present only when a version is configured. */
  function VersionLine(version: string): string
  {
    if version != "" then VersionText else ""
  }

  /** The version line: `"  %-40s%s\n"` of `-v, --version` and its
      description. */
  const VersionText: string := "  " + PadRight("-v, --version", NameWidth) + "output the version number\n"

  /** The help line: `"  %-40s%s\n"` of `-h, --help` and its
      description. */
  const HelpLine: string := "  " + PadRight("-h, --help", NameWidth) + "display help for command\n"

  /** Everything before the first option line. */
  function Opening(name: string, description: string): string
  {
    UsageLine(name) + DescriptionBlock(description) + OptionsHeader
  }

  /** Everything after the last option line. */
  function Closing(version: string): string
  {
    VersionLine(version) + HelpLine
  }

  /** `helpText`: the whole help text, in the order `helpText` appends its
      parts. */
  function Render(name: string, description: string, version: string, opts: seq<OptionDecl>): string
  {
    Opening(name, description) + OptionLines(opts) + Closing(version)
  }

  // ---------------------------------------------------------------------
  // Properties of the rendered text

  /** The text opens with the usage line; then comes the description
      paragraph exactly when the description is non-empty; then the
      `Options:` header. */
  lemma RenderOpening(name: string, description: string, version: string, opts: seq<OptionDecl>)
    ensures var h := Render(name, description, version, opts);
            var u := |UsageLine(name)|;
            && At(h, 0, "Usage: " + name + " [options] [arguments]\n")
            && (description != "" ==>
                  At(h, u, "\n" + description + "\n") && At(h, u + |description| + 2, "\nOptions:\n"))
            && (description == "" ==> At(h, u, "\nOptions:\n"))
  {
    AtPartsOfFirst(UsageLine(name), DescriptionBlock(description), OptionsHeader,
                   OptionLines(opts), Closing(version));
  }

  /** Regrouping four concatenated strings. */
  lemma Regroup(a: string, b: string, c: string, d: string)
    ensures a + (b + (c + d)) == a + b + c + d
    ensures a + b + (c + d) == a + b + c + d
  {
  }

  /** One round of `helpText`'s loop: appending the head and then the
      suffix of option `i` extends the text by that option's line. */
  lemma OptionLinesStep(opening: string, opts: seq<OptionDecl>, i: nat)
    requires i < |opts|
    ensures opening + OptionLines(opts[..i + 1])
            == opening + OptionLines(opts[..i]) + OptionHead(opts[i]) + DefaultSuffix(opts[i].defaultValue)
  {
    assert opts[..i + 1] == opts[..i] + [opts[i]];
    JoinSnoc(opts[..i], opts[i], OptionLine);
    Regroup(opening, OptionLines(opts[..i]), OptionHead(opts[i]), DefaultSuffix(opts[i].defaultValue));
  }

  /** The help text, as the segments `helpText` appends after the option
      lines. */
  lemma RenderSegments(name: string, description: string, version: string, opts: seq<OptionDecl>)
    ensures Render(name, description, version, opts)
            == Opening(name, description) + OptionLines(opts) + VersionLine(version) + HelpLine
  {
    Regroup("", Opening(name, description) + OptionLines(opts), VersionLine(version), HelpLine);
    assert "" + (Opening(name, description) + OptionLines(opts)) == Opening(name, description) + OptionLines(opts);
  }

  /** Within the option lines, the `i`-th option's line follows the lines
      of the options registered before it. */
  lemma OptionLineAt(opts: seq<OptionDecl>, i: nat)
    requires i < |opts|
    ensures At(OptionLines(opts), |OptionLines(opts[..i])|, OptionLine(opts[i]))
  {
    JoinPartAt(opts, OptionLine, i);
  }

  /** The `i`-th option's line sits in the help text right after the
      opening and the lines of the options registered before it: one line
      per option, in registration order. */
  lemma RenderOptionLineAt(name: string, description: string, version: string, opts: seq<OptionDecl>, i: nat)
    requires i < |opts|
    ensures At(Render(name, description, version, opts),
               |Opening(name, description)| + |OptionLines(opts[..i])|,
               OptionLine(opts[i]))
  {
    JoinPartBetween(Opening(name, description), opts, OptionLine, Closing(version), i);
  }

  /** The text closes with the version line, exactly when a version is
      configured, and then the help line, always last. */
  lemma RenderClosing(name: string, description: string, version: string, opts: seq<OptionDecl>)
    ensures var h := Render(name, description, version, opts);
            var b := |Opening(name, description)| + |OptionLines(opts)|;
            && (version != "" ==>
                  At(h, b, VersionText) && At(h, b + |VersionText|, HelpLine)
                  && |h| == b + |VersionText| + |HelpLine|)
            && (version == "" ==> At(h, b, HelpLine) && |h| == b + |HelpLine|)
  {
    AtPartsOfLast(Opening(name, description), OptionLines(opts), VersionLine(version), HelpLine);
  }

  /** Number of line breaks in `s`. */
  function Newlines(s: string): nat
  {
    multiset(s)['\n']
  }

  predicate NoNewline(s: string)
  {
    '\n' !in s
  }

  /** The fields of an option hold no line break. */
  predicate SingleLineFields(o: OptionDecl)
  {
    && NoNewline(o.shortOption) && NoNewline(o.longOption) && NoNewline(o.mapKey)
    && NoNewline(o.description) && NoNewline(o.defaultValue)
  }

  lemma NameHasNoNewline(o: OptionDecl)
    requires SingleLineFields(o)
    ensures NoNewline(OptionName(o))
  {
    assert NoNewline(Placeholder(o.mapKey));
  }

  lemma PadRightNoNewline(s: string, width: nat)
    requires NoNewline(s)
    ensures NoNewline(PadRight(s, width))
  {
    var r := PadRight(s, width);
    forall i | 0 <= i < |r|
      ensures r[i] != '\n'
    {
      if i < |s| {
        assert r[i] == r[..|s|][i];
      }
    }
  }

  /** A line break after a text without one: one line break in all. */
  lemma OneNewline(text: string)
    requires NoNewline(text)
    ensures Newlines(text + "\n") == 1
  {
    assert multiset(text + "\n") == multiset(text) + multiset{'\n'};
  }

  lemma SuffixHasOneNewline(defaultValue: string)
    requires NoNewline(defaultValue)
    ensures Newlines(DefaultSuffix(defaultValue)) == 1
  {
    if defaultValue != "" {
      OneNewline(" (default: \"" + defaultValue + "\")");
    } else {
      OneNewline("");
      assert "" + "\n" == "\n";
    }
  }

  /** An option whose fields hold no line break renders as exactly one line. */
  lemma OptionLineIsOneLine(o: OptionDecl)
    requires SingleLineFields(o)
    ensures Newlines(OptionLine(o)) == 1
  {
    NameHasNoNewline(o);
    PadRightNoNewline(OptionName(o), NameWidth);
    SuffixHasOneNewline(o.defaultValue);
    assert NoNewline(OptionHead(o));
  }

  /** Options whose fields hold no line break render as one line each. */
  lemma {:induction false} OptionLinesCount(opts: seq<OptionDecl>)
    requires forall j :: 0 <= j < |opts| ==> SingleLineFields(opts[j])
    ensures Newlines(OptionLines(opts)) == |opts|
    decreases |opts|
  {
    if opts != [] {
      var last := |opts| - 1;
      assert opts == opts[..last] + [opts[last]];
      OptionLinesCount(opts[..last]);
      OptionLineIsOneLine(opts[last]);
      JoinSnoc(opts[..last], opts[last], OptionLine);
    }
  }

  /** Positions `lo` up to `hi` of `l` hold spaces. */
  predicate Blank(l: string, lo: nat, hi: nat)
  {
    hi <= |l| && forall i :: lo <= i < hi ==> l[i] == ' '
  }

  /** `l` ends with a line break. */
  predicate EndsLine(l: string)
  {
    |l| > 0 && l[|l| - 1] == '\n'
  }

  lemma SuffixEndsLine(defaultValue: string)
    ensures EndsLine(DefaultSuffix(defaultValue))
  {
  }

  /** The layout of `"  %-40s%s"` of `name` and `description`, followed by
      `suffix`: two spaces, the name in full, spaces up to the description
      column, the description, then the suffix, which ends the line. */
  predicate HeadShape(l: string, name: string, description: string, suffix: string)
  {
    var col := DescriptionColumn(name);
    && |l| == col + |description| + |suffix|
    && At(l, 0, "  ")
    && At(l, 2, name)
    && Blank(l, 2 + |name|, col)
    && At(l, col, description)
    && At(l, col + |description|, suffix)
    && EndsLine(l)
  }

  lemma HeadLayout(name: string, description: string, suffix: string)
    requires EndsLine(suffix)
    ensures HeadShape("  " + PadRight(name, NameWidth) + description + suffix, name, description, suffix)
  {
    var padded := PadRight(name, NameWidth);
    var l := "  " + padded + description + suffix;
    AtParts("  " + padded, description, suffix);
    AtParts("  ", padded, description + suffix);
    assert At(padded, 0, name);
    AtWithin(l, 2, padded, 0, name);
    forall i | 2 + |name| <= i < 2 + |padded|
      ensures l[i] == ' '
    {
      assert l[i] == padded[i - 2];
    }
    assert l[|l| - 1] == suffix[|suffix| - 1];
  }

  /** Layout of one option line: two spaces, the name in full, spaces up to
      the description column, the description, then the default suffix,
      which ends the line. */
  lemma OptionLineLayout(o: OptionDecl)
    ensures HeadShape(OptionLine(o), OptionName(o), o.description, DefaultSuffix(o.defaultValue))
  {
    SuffixEndsLine(o.defaultValue);
    HeadLayout(OptionName(o), o.description, DefaultSuffix(o.defaultValue));
  }
}
