/** How the reader shows a content file. Markdown goes through a
    line-by-line classifier: the text is split on line feeds and each line
    becomes one block, chosen by the first test it passes: `# `, `## `,
    `### ` and `- ` prefixes, a blank line, a line containing `**`, and
    otherwise a plain paragraph. Html is shown as it is and a pdf by its
    URL. */
module Markdown {
  import opened Strings
  import opened FileName

  /** A piece of a paragraph, shown in bold or not. */
  datatype Span = Span(text: string, bold: bool)

  /** What one markdown line is shown as. */
  datatype Block =
    | Heading1(text: string)
    | Heading2(text: string)
    | Heading3(text: string)
    | ListItem(text: string)
    | Spacer
    | RichParagraph(spans: seq<Span>)
    | Paragraph(text: string)

  /** What the content area shows for a file. */
  datatype View =
    | MarkdownView(blocks: seq<Block>)
    | HtmlView(html: string)
    | PdfView(url: string)

  /** The pieces of `line.split('**')`: the even-numbered ones plain, the
      odd-numbered ones bold. */
  function Spans(parts: seq<string>): (spans: seq<Span>)
    ensures |spans| == |parts|
    ensures forall j :: 0 <= j < |parts| ==> spans[j].text == parts[j]
    ensures forall j :: 0 <= j < |parts| ==> (spans[j].bold <==> j % 2 == 1)
  {
    seq(|parts|, j requires 0 <= j < |parts| => Span(parts[j], j % 2 == 1))
  }

  function Texts(spans: seq<Span>): (texts: seq<string>)
    ensures |texts| == |spans|
    ensures forall j :: 0 <= j < |spans| ==> texts[j] == spans[j].text
  {
    seq(|spans|, j requires 0 <= j < |spans| => spans[j].text)
  }

  /** The four markers exclude one another and a blank line has none, so
      each kind of block is decided by its own test alone, whatever the
      order the tests are made in; a line with no marker that is not blank
      is a paragraph, bold exactly when it contains `**`. */
  function ClassifyLine(line: string): (b: Block)
    ensures b.Heading1? <==> StartsWith(line, "# ")
    ensures b.Heading2? <==> StartsWith(line, "## ")
    ensures b.Heading3? <==> StartsWith(line, "### ")
    ensures b.ListItem? <==> StartsWith(line, "- ")
    ensures b.Spacer? <==> IsBlank(line)
    ensures b.RichParagraph? || b.Paragraph? ==> (b.RichParagraph? <==> Contains(line, "**"))
  {
    MarkedLineNotBlank(line);
    if StartsWith(line, "# ") then Heading1(line[2..])
    else if StartsWith(line, "## ") then Heading2(line[3..])
    else if StartsWith(line, "### ") then Heading3(line[4..])
    else if StartsWith(line, "- ") then ListItem(line[2..])
    else if IsBlank(line) then Spacer
    else if Contains(line, "**") then RichParagraph(Spans(Split(line, "**")))
    else Paragraph(line)
  }

  /** A line that starts with `#` or `-` is not blank, and the `#` markers
      of different levels exclude one another. */
  lemma MarkedLineNotBlank(line: string)
    ensures |line| > 0 && (line[0] == '#' || line[0] == '-') ==> !IsBlank(line)
    ensures StartsWith(line, "## ") || StartsWith(line, "### ") ==> !StartsWith(line, "# ")
    ensures StartsWith(line, "### ") ==> !StartsWith(line, "## ")
  {
    if |line| > 0 && (line[0] == '#' || line[0] == '-') {
      assert !IsJsWhiteSpace(line[0]);
    }
    if StartsWith(line, "## ") || StartsWith(line, "### ") {
      assert line[1] == line[..3][1] == '#';
    }
    if StartsWith(line, "### ") {
      assert line[2] == line[..4][2] == '#';
    }
  }

  /** The line a block was made from, as far as the block tells: its marker
      followed by its text, the spans joined by `**` again, and nothing
      for a spacer. */
  function LineOf(b: Block): string {
    match b
    case Heading1(text) => "# " + text
    case Heading2(text) => "## " + text
    case Heading3(text) => "### " + text
    case ListItem(text) => "- " + text
    case Spacer => ""
    case RichParagraph(spans) => Join(Texts(spans), "**")
    case Paragraph(text) => text
  }

  /** Classification loses nothing but the white space of a blank line:
      a heading's or list item's text is the line minus its marker, and a
      bold paragraph's pieces joined by `**` give the line back. */
  lemma ClassifyRoundTrip(line: string)
    ensures LineOf(ClassifyLine(line)) == (if IsBlank(line) then "" else line)
  {
    if StartsWith(line, "# ") {
      assert line == line[..2] + line[2..];
      assert !IsBlank(line) by { assert !IsJsWhiteSpace(line[0]); }
    } else if StartsWith(line, "## ") {
      assert line == line[..3] + line[3..];
      assert !IsBlank(line) by { assert !IsJsWhiteSpace(line[0]); }
    } else if StartsWith(line, "### ") {
      assert line == line[..4] + line[4..];
      assert !IsBlank(line) by { assert !IsJsWhiteSpace(line[0]); }
    } else if StartsWith(line, "- ") {
      assert line == line[..2] + line[2..];
      assert !IsBlank(line) by { assert !IsJsWhiteSpace(line[0]); }
    } else if !IsBlank(line) && Contains(line, "**") {
      var parts := Split(line, "**");
      assert Texts(Spans(parts)) == parts;
    }
  }

  /** A line classed as a bold paragraph is exactly a line with no marker,
      not blank, that contains `**`; it has at least two pieces, none of
      which contains `**`, each but the last ends at the leftmost `**`
      after it begins, and the odd-numbered ones are bold. */
  lemma BoldParagraph(line: string)
    ensures ClassifyLine(line).RichParagraph? <==>
              && !StartsWith(line, "# ") && !StartsWith(line, "## ") && !StartsWith(line, "### ")
              && !StartsWith(line, "- ") && !IsBlank(line) && Contains(line, "**")
    ensures ClassifyLine(line).RichParagraph? ==>
              var spans := ClassifyLine(line).spans;
              && |spans| >= 2
              && Join(Texts(spans), "**") == line
              && (forall j :: 0 <= j < |spans| ==> !Contains(spans[j].text, "**"))
              && (forall j :: 0 <= j < |spans| ==> (spans[j].bold <==> j % 2 == 1))
              && (forall j :: 0 <= j < |spans| - 1 ==> !Contains(spans[j].text + "*", "**"))
  {
    if ClassifyLine(line).RichParagraph? {
      var parts := Split(line, "**");
      assert Texts(Spans(parts)) == parts;
      assert "**"[..1] == "*";
    }
  }

  /** `content.split('\n').map(...)`: one block per line. */
  function RenderMarkdown(content: string): (blocks: seq<Block>)
    ensures |blocks| == |Split(content, "\n")|
    ensures forall i :: 0 <= i < |blocks| ==> blocks[i] == ClassifyLine(Split(content, "\n")[i])
  {
    var lines := Split(content, "\n");
    seq(|lines|, i requires 0 <= i < |lines| => ClassifyLine(lines[i]))
  }

  /** There is exactly one block per line: one more than the number of
      line feeds; the lines hold no line feed and, joined by line feeds,
      give the content back. */
  lemma OneBlockPerLine(content: string)
    ensures |RenderMarkdown(content)| == multiset(content)['\n'] + 1
    ensures Join(Split(content, "\n"), "\n") == content
    ensures forall i :: 0 <= i < |Split(content, "\n")| ==> '\n' !in Split(content, "\n")[i]
  {
    SplitCount(content, '\n');
    var lines := Split(content, "\n");
    forall i | 0 <= i < |lines| ensures '\n' !in lines[i] {
      NoFeedInLine(lines[i]);
    }
  }

  lemma NoFeedInLine(line: string)
    requires !Contains(line, "\n")
    ensures '\n' !in line
  {
    if '\n' in line {
      var j :| 0 <= j < |line| && line[j] == '\n';
      assert line[j..j + 1] == "\n";
      assert OccursAt(line, "\n", j);
    }
  }

  /** `renderContent(content, type)`: markdown is classified line by line,
      html is shown as it is, and a pdf is shown from its URL. */
  function RenderContent(content: string, t: FileType): (v: View)
    ensures t == Md ==> v.MarkdownView? && |v.blocks| == multiset(content)['\n'] + 1
    ensures t == Md ==> v == MarkdownView(RenderMarkdown(content))
    ensures t == Html ==> v == HtmlView(content)
    ensures t == Pdf ==> v == PdfView(content)
  {
    match t
    case Md =>
      OneBlockPerLine(content);
      MarkdownView(RenderMarkdown(content))
    case Html => HtmlView(content)
    case Pdf => PdfView(content)
  }
}
