/**
 * `TwseCrawker.clean_data` of stockanalysis.py: every cell of a row of quoted
 * figures is stripped of surrounding whitespace and of its thousands
 * separators, in place.
 */
module StockAnalysis {
  import opened PyStr

  /** `re.sub(",", "", cell.strip())`. */
  function CleanCell(cell: string): (r: string)
    ensures ',' !in r
    ensures ',' !in cell && Strip(cell) == cell ==> r == cell
  {
    RemoveAll(Strip(cell), ',')
  }

  /** A cleaned cell is `"".join(cell.strip().split(","))`. */
  lemma CleanCellIsSplitJoin(cell: string)
    ensures CleanCell(cell) == Join(Split(Strip(cell), ','), "")
  {
    RemoveAllIsSplitJoin(Strip(cell), ',');
  }

  lemma StripExample()
    ensures Strip(" 1,234.50 ") == "1,234.50"
  {
    var padded, text := " 1,234.50 ", "1,234.50";
    assert padded[1..] == text + " ";
    assert LStrip(text + " ") == text + " ";
    assert (text + " ")[..|text|] == text;
    assert RStrip(text) == text;
  }

  lemma RemoveCommaExample()
    ensures RemoveAll("1,234.50", ',') == "1234.50"
  {
    assert "1,234.50" == "1" + ("," + "234.50");
    RemoveAllConcat("1", "," + "234.50", ',');
    RemoveAllConcat(",", "234.50", ',');
  }

  /** A quoted price loses its padding and its thousands separator. */
  lemma CleanCellExample()
    ensures CleanCell(" 1,234.50 ") == "1234.50"
  {
    StripExample();
    RemoveCommaExample();
  }

  /**
   * `clean_data`: each slot of `row` is overwritten with its cleaned cell; the
   * row keeps its length and the very row given is returned.
   */
  method CleanData(row: array<string>) returns (cleaned: array<string>)
    modifies row
    ensures cleaned == row
    ensures forall i :: 0 <= i < row.Length ==> row[i] == CleanCell(old(row[i]))
    ensures forall i :: 0 <= i < row.Length ==> ',' !in row[i]
  {
    for index := 0 to row.Length
      invariant forall i :: 0 <= i < index ==> row[i] == CleanCell(old(row[i]))
      invariant forall i :: index <= i < row.Length ==> row[i] == old(row[i])
    {
      row[index] := CleanCell(row[index]);
    }
    cleaned := row;
  }
}
