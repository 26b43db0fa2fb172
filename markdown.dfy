/** A Markdown document builder: a string that each `Add*` call extends with
    one formatted block, plus helpers that format inline links and emphasis. */
module Markdown {
  import opened PyText

  /** `create_block(text, lbcount)`: the text followed by `lbcount` line breaks
      (none for a count below 1). */
  function CreateBlock(text: string := "", lbcount: int := 1): (block: string)
    ensures |block| == |text| + Max(0, lbcount)
    ensures block[..|text|] == text
    ensures forall i :: |text| <= i < |block| ==> block[i] == '\n'
  {
    RepeatChar('\n', lbcount);
    text + Repeat("\n", lbcount)
  }

  /** `"".join(["#"] * htype) + " " + text`. */
  function HeaderLine(text: string, htype: int): (line: string)
    ensures |line| == Max(0, htype) + 1 + |text|
    ensures forall i :: 0 <= i < Max(0, htype) ==> line[i] == '#'
    ensures line[Max(0, htype)] == ' ' && line[Max(0, htype) + 1..] == text
  {
    RepeatChar('#', htype);
    Repeat("#", htype) + " " + text
  }

  /** `"".join(["  "] * n)`: `2 * n` spaces. */
  lemma {:induction false} Indentation(n: int)
    ensures |Repeat("  ", n)| == 2 * Max(0, n)
    ensures forall i :: 0 <= i < |Repeat("  ", n)| ==> Repeat("  ", n)[i] == ' '
    decreases if n < 0 then 0 else n
  {
    if n > 0 {
      Indentation(n - 1);
    }
  }

  /** A list item: two spaces per level of depth (none at depth 0 or below),
      then `- ` and the text. */
  function ListItemLine(text: string, depth: int): (line: string)
    ensures |line| == 2 * Max(0, depth) + 2 + |text|
    ensures forall i :: 0 <= i < 2 * Max(0, depth) ==> line[i] == ' '
    ensures line[2 * Max(0, depth)..] == "- " + text
  {
    Indentation(depth);
    var indent := if depth > 0 then Repeat("  ", depth) else "";
    indent + "- " + text
  }

  /** A block quote: `> ` and the lines joined by a Markdown hard break. */
  function QuoteText(lines: seq<string>): (quote: string)
    ensures |quote| >= 2 && quote[..2] == "> "
  {
    "> " + Join(lines, "  \n")
  }

  /** Joining one more part adds the separator and that part at the end. */
  lemma {:induction false} JoinAppend(parts: seq<string>, sep: string, x: string)
    requires parts != []
    ensures Join(parts + [x], sep) == Join(parts, sep) + sep + x
  {
    if |parts| > 1 {
      JoinAppend(parts[1..], sep, x);
      assert (parts + [x])[1..] == parts[1..] + [x];
    }
  }

  /** The first line opens the quote, and each further line follows a hard
      break after the lines before it. */
  lemma QuoteLines(lines: seq<string>, line: string)
    ensures QuoteText([line]) == "> " + line
    ensures lines != [] ==> QuoteText(lines + [line]) == QuoteText(lines) + "  \n" + line
  {
    if lines != [] {
      JoinAppend(lines, "  \n", line);
    }
  }

  /** `![alt_text](url)`. */
  function ImageText(url: string, altText: string): (image: string)
    ensures |image| == |altText| + |url| + 5
    ensures image[..2] == "![" && image[2..|altText| + 2] == altText
    ensures image[|altText| + 2..|altText| + 4] == "](" && image[|altText| + 4..|image| - 1] == url
    ensures image[|image| - 1] == ')'
  {
    "![" + altText + "](" + url + ")"
  }

  /** `link(url, text)`: `[text](url)`, showing the url itself when the text
      is empty. */
  function Link(url: string, text: string := ""): (link: string)
    ensures text != "" ==> |link| == |text| + |url| + 4
    ensures text != "" ==> link[0] == '[' && link[1..|text| + 1] == text && link[|text| + 1..|text| + 3] == "]("
    ensures text != "" ==> link[|text| + 3..|link| - 1] == url && link[|link| - 1] == ')'
  {
    var linkText := if text != "" then text else url;
    "[" + linkText + "](" + url + ")"
  }

  /** A link without a text reads the same as a link whose text is its url. */
  lemma LinkDefault(url: string)
    ensures Link(url) == Link(url, url) == "[" + url + "](" + url + ")"
  {
  }

  /** `**text**`. */
  function Emphasis(text: string): (strong: string)
    ensures |strong| == |text| + 4
    ensures strong[..2] == "**" && strong[2..|text| + 2] == text && strong[|text| + 2..] == "**"
  {
    "**" + text + "**"
  }

  /** `*text*`. */
  function Italics(text: string): (wrapped: string)
    ensures |wrapped| == |text| + 2
    ensures wrapped[0] == '*' && wrapped[1..|text| + 1] == text && wrapped[|text| + 1] == '*'
  {
    "*" + text + "*"
  }

  /** Emphasis is italics applied twice. */
  lemma EmphasisIsDoubleItalics(text: string)
    ensures Emphasis(text) == Italics(Italics(text))
  {
    assert "**" + text + "**" == "*" + ("*" + text + "*") + "*";
  }

  /** One table row: `| ` and the cells joined by `| `, then a newline. */
  function RowLine(items: seq<string>): string {
    "| " + Join(items, "| ") + "\n"
  }

  /** The cells of the rule under the header row, one `| ` and a dash per
      character of each header cell, as far as `items` goes. */
  function RuleCells(items: seq<string>): string {
    if items == [] then ""
    else
      var last := items[|items| - 1];
      RuleCells(items[..|items| - 1]) + "| " + Repeat("-", |last|)
  }

  /** The table so far: every row's line, with the rule after the first. */
  function TableRows(rows: seq<seq<string>>): string {
    if rows == [] then ""
    else
      var last := rows[|rows| - 1];
      TableRows(rows[..|rows| - 1]) + RowLine(last) + (if |rows| == 1 then RuleCells(last) + "\n" else "")
  }

  lemma TableRowsStep(rows: seq<seq<string>>, i: nat)
    requires i < |rows|
    ensures TableRows(rows[..i + 1]) == TableRows(rows[..i]) + RowLine(rows[i]) + (if i == 0 then RuleCells(rows[i]) + "\n" else "")
  {
    assert rows[..i + 1][..i] == rows[..i];
  }

  /** `add_table(rows)`: the rows, then a blank line. */
  function TableText(rows: seq<seq<string>>): string {
    TableRows(rows) + "\n"
  }

  /** The lines of `rows`, one after the other. */
  function RowLines(rows: seq<seq<string>>): string {
    if rows == [] then "" else RowLine(rows[0]) + RowLines(rows[1..])
  }

  lemma {:induction false} RowLinesAppend(rows: seq<seq<string>>, row: seq<string>)
    ensures RowLines(rows + [row]) == RowLines(rows) + RowLine(row)
  {
    if rows != [] {
      RowLinesAppend(rows[1..], row);
      assert (rows + [row])[1..] == rows[1..] + [row];
    }
  }

  lemma {:induction false} TableRowsLayout(rows: seq<seq<string>>)
    requires rows != []
    ensures TableRows(rows) == RowLine(rows[0]) + RuleCells(rows[0]) + "\n" + RowLines(rows[1..])
  {
    if |rows| > 1 {
      var init, last := rows[..|rows| - 1], rows[|rows| - 1];
      TableRowsLayout(init);
      assert TableRows(rows) == TableRows(init) + RowLine(last);
      assert init[0] == rows[0];
      assert rows[1..] == init[1..] + [last];
      RowLinesAppend(init[1..], last);
    }
  }

  /** A table is its header line, the rule, every other row's line and a
      closing blank line; no rows give just the blank line. */
  lemma TableLayout(rows: seq<seq<string>>)
    ensures rows == [] ==> TableText(rows) == "\n"
    ensures rows != [] ==> TableText(rows) == RowLine(rows[0]) + RuleCells(rows[0]) + "\n" + RowLines(rows[1..]) + "\n"
  {
    if rows != [] {
      TableRowsLayout(rows);
    }
  }

  lemma {:induction false} TotalLengthAppend(parts: seq<string>, x: string)
    ensures TotalLength(parts + [x]) == TotalLength(parts) + |x|
  {
    if parts != [] {
      TotalLengthAppend(parts[1..], x);
      assert (parts + [x])[1..] == parts[1..] + [x];
    }
  }

  /** The rule holds `| ` and one dash per character for every header cell. */
  lemma {:induction false} RuleCellsShape(items: seq<string>)
    ensures |RuleCells(items)| == 2 * |items| + TotalLength(items)
  {
    if items != [] {
      var init, last := items[..|items| - 1], items[|items| - 1];
      RuleCellsShape(init);
      RepeatChar('-', |last|);
      assert items == init + [last];
      TotalLengthAppend(init, last);
    }
  }

  /** Under a non-empty header row the rule line is as long as the header line. */
  lemma RuleMatchesHeader(items: seq<string>)
    requires items != []
    ensures |RuleCells(items) + "\n"| == |RowLine(items)|
  {
    RuleCellsShape(items);
    JoinLength(items, "| ");
  }

  /** `MarkdownGenerator`: the document text built so far. Each `Add*` method
      appends one block and returns the generator itself. */
  class MarkdownGenerator {
    var content: string

    constructor ()
      ensures content == ""
    {
      content := "";
    }

    method AddHeader(text: string, htype: int := 1) returns (md: MarkdownGenerator)
      modifies this
      ensures md == this
      ensures content == old(content) + CreateBlock(HeaderLine(text, htype), 2)
    {
      var line := Repeat("#", htype) + " " + text;
      content := content + CreateBlock(line, 2);
      md := this;
    }

    method AddText(text: string) returns (md: MarkdownGenerator)
      modifies this
      ensures md == this
      ensures content == old(content) + CreateBlock(text, 2)
    {
      content := content + CreateBlock(text, 2);
      md := this;
    }

    method AddListItem(text: string, depth: int := 0) returns (md: MarkdownGenerator)
      modifies this
      ensures md == this
      ensures content == old(content) + CreateBlock(ListItemLine(text, depth))
    {
      var indent := "";
      if depth > 0 {
        indent := Repeat("  ", depth);
      }
      content := content + CreateBlock(indent + "- " + text);
      md := this;
    }

    method AddLinebreak() returns (md: MarkdownGenerator)
      modifies this
      ensures md == this
      ensures content == old(content) + "\n"
    {
      content := content + CreateBlock("", 1);
      md := this;
    }

    method AddBlockquote(lines: seq<string>) returns (md: MarkdownGenerator)
      modifies this
      ensures md == this
      ensures content == old(content) + CreateBlock(QuoteText(lines), 2)
    {
      content := content + CreateBlock("> " + Join(lines, "  \n"), 2);
      md := this;
    }

    method AddHorizontalRule() returns (md: MarkdownGenerator)
      modifies this
      ensures md == this
      ensures content == old(content) + "___\n"
    {
      content := content + CreateBlock("___");
      md := this;
    }

    method AddImage(url: string, altText: string) returns (md: MarkdownGenerator)
      modifies this
      ensures md == this
      ensures content == old(content) + CreateBlock(ImageText(url, altText), 2)
    {
      content := content + CreateBlock("![" + altText + "](" + url + ")", 2);
      md := this;
    }

    method AddTable(rows: seq<seq<string>>) returns (md: MarkdownGenerator)
      modifies this
      ensures md == this
      ensures content == old(content) + TableText(rows)
    {
      for i := 0 to |rows|
        invariant content == old(content) + TableRows(rows[..i])
      {
        var items := rows[i];
        TableRowsStep(rows, i);
        content := content + ("| " + Join(items, "| ") + "\n");
        if i == 0 {
          AddRule(items);
        }
      }
      assert rows[..|rows|] == rows;
      content := content + "\n";
      md := this;
    }

    /** The rule line `add_table` writes under the header row. */
    method AddRule(items: seq<string>)
      modifies this
      ensures content == old(content) + RuleCells(items) + "\n"
    {
      for j := 0 to |items|
        invariant content == old(content) + RuleCells(items[..j])
      {
        assert items[..j + 1][..j] == items[..j];
        content := content + "| ";
        content := content + Repeat("-", |items[j]|);
      }
      assert items[..|items|] == items;
      content := content + "\n";
    }
  }
}
