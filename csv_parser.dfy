/** The CSV parser's three text rules: which delimiter a file uses, how column headers
    are renamed to the canonical schema, and how a cell becomes a number. Reading the
    file, choosing its encoding and building the rows are I/O and are not modelled; the
    first line of the file and the list of header names are parameters. */
module CsvParser {
  import opened Wrappers
  import opened PyText
  import opened Parameters

  // ---------------------------------------------------------------------------------
  // Delimiter detection
  // ---------------------------------------------------------------------------------

  /** The position of the first configured delimiter that occurs in `line`, if any. */
  function FirstPresent(delimiters: seq<string>, line: string): (k: Option<nat>)
    ensures k.Some? ==> k.value < |delimiters| && Contains(line, delimiters[k.value])
    ensures k.Some? ==> forall j :: 0 <= j < k.value ==> !Contains(line, delimiters[j])
    ensures k.None? <==> forall j :: 0 <= j < |delimiters| ==> !Contains(line, delimiters[j])
    decreases |delimiters|
  {
    if delimiters == [] then None
    else if Contains(line, delimiters[0]) then Some(0)
    else
      match FirstPresent(delimiters[1..], line)
      case None => None
      case Some(k) => Some(k + 1)
  }

  /** `_detect_delimiter` after the first line has been read: the configured delimiters
      are tried in order and the first one that occurs in the line wins; when none
      occurs the comma is used. */
  method DetectDelimiter(config: CsvConfig, firstLine: string) returns (delimiter: string)
    ensures match FirstPresent(config.delimiters, firstLine)
            case Some(k) => delimiter == config.delimiters[k]
            case None => delimiter == ","
  {
    var delimiters := config.delimiters;
    for i := 0 to |delimiters|
      invariant forall j :: 0 <= j < i ==> !Contains(firstLine, delimiters[j])
    {
      if Contains(firstLine, delimiters[i]) {
        return delimiters[i];
      }
    }
    return ",";
  }

  /** The chosen delimiter does occur in the line, unless it is the comma fallback. */
  lemma DelimiterOccurs(delimiters: seq<string>, line: string, k: nat)
    requires FirstPresent(delimiters, line) == Some(k)
    ensures exists at: nat :: OccursAt(line, delimiters[k], at)
  {
    ContainsIff(line, delimiters[k]);
  }

  /** A semicolon-separated header is read with ";" when the configuration lists
      ";" before ",", and with "," when the order is reversed and the header holds
      both. */
  lemma DelimiterOrder()
    ensures FirstPresent([";", ","], "Fecha;Peso") == Some(0)
    ensures FirstPresent([",", ";"], "a;b,c") == Some(0)
    ensures FirstPresent(["\t"], "a,b") == None
  {
    assert Contains("Fecha;Peso", ";") by {
      assert OccursAt("Fecha;Peso", ";", 5);
      ContainsIff("Fecha;Peso", ";");
    }
    assert Contains("a;b,c", ",") by {
      assert OccursAt("a;b,c", ",", 3);
      ContainsIff("a;b,c", ",");
    }
    assert !Contains("a,b", "\t") by {
      ContainsIff("a,b", "\t");
      forall at: nat ensures !OccursAt("a,b", "\t", at) {
        if at + 1 <= 3 {
          assert "a,b"[at..at + 1] == ["a,b"[at]];
        }
      }
    }
  }

  // ---------------------------------------------------------------------------------
  // Column names
  // ---------------------------------------------------------------------------------

  /** The header a column ends up with: the mapped name when its stripped name is a key
      of the mapping table, and its own, unstripped name otherwise. */
  function Renamed(column: string, mappings: map<string, string>): string
  {
    var stripped := Strip(column);
    if stripped in mappings then mappings[stripped] else column
  }

  /** The loop of `_normalize_column_names`: every header whose normalised name (its
      stripped name, `key`) is a key of the mapping table is entered with its canonical
      name, and the table holds nothing but such headers. */
  method RenameTable(columns: seq<string>, mappings: map<string, string>, key: string -> string)
    returns (renameMap: map<string, string>)
    ensures forall c :: c in renameMap ==> key(c) in mappings && renameMap[c] == mappings[key(c)]
    ensures forall k :: 0 <= k < |columns| && key(columns[k]) in mappings ==> columns[k] in renameMap
    ensures forall c :: c in renameMap ==> c in columns
  {
    renameMap := map[];
    for i := 0 to |columns|
      invariant forall c :: c in renameMap ==> key(c) in mappings && renameMap[c] == mappings[key(c)]
      invariant forall k :: 0 <= k < i && key(columns[k]) in mappings ==> columns[k] in renameMap
      invariant forall c :: c in renameMap ==> c in columns[..i]
    {
      var stripped := key(columns[i]);
      if stripped in mappings {
        renameMap := renameMap[columns[i] := mappings[stripped]];
      }
    }
  }

  /** `_normalize_column_names`: the rename table is applied to every header; a table
      that came out empty leaves the headers as they were. */
  method NormalizeColumnNames(columns: seq<string>, mappings: map<string, string>)
    returns (normalized: seq<string>)
    ensures |normalized| == |columns|
    ensures forall i :: 0 <= i < |columns| ==> normalized[i] == Renamed(columns[i], mappings)
  {
    var renameMap := RenameTable(columns, mappings, Strip);
    normalized := columns;
    if renameMap != map[] {
      normalized := seq(|columns|, i requires 0 <= i < |columns| =>
        if columns[i] in renameMap then renameMap[columns[i]] else columns[i]);
    }
  }

  /** Every header after renaming is either a canonical name from the table or the
      original header untouched; an unmapped header keeps its surrounding spaces. */
  lemma RenamedIsMappedOrOriginal(column: string, mappings: map<string, string>)
    ensures Renamed(column, mappings) in mappings.Values || Renamed(column, mappings) == column
    ensures Strip(column) !in mappings ==> Renamed(column, mappings) == column
  {
    var stripped := Strip(column);
    if stripped in mappings {
      assert mappings[stripped] in mappings.Values;
    }
  }

  /** Headers padded with whitespace are matched by their stripped name. */
  lemma PaddedHeader(pad: string, name: string, trail: string, mappings: map<string, string>)
    requires AllSpace(pad) && AllSpace(trail) && Unpadded(name) && name in mappings
    ensures Renamed(pad + name + trail, mappings) == mappings[name]
  {
    StripRemovesPadding(pad, name, trail);
  }

  /** A header with no surrounding whitespace is looked up as it is. */
  lemma RenamedUnpadded(column: string, mappings: map<string, string>)
    requires Unpadded(column)
    ensures Renamed(column, mappings) == if column in mappings then mappings[column] else column
  {
    StripUnpadded(column);
  }

  // ---------------------------------------------------------------------------------
  // Numeric cells
  // ---------------------------------------------------------------------------------

  /** A cell as pandas hands it over: a missing marker (None, NaN, pd.NA), a number, a
      string, or any other object. */
  datatype Cell = Missing | Number(x: real) | Text(s: string) | Other

  /** The text `float` is given: stripped, with every comma turned into a dot. */
  function DecimalText(s: string): (t: string)
    ensures |t| <= |s|
    ensures ',' !in t
    ensures Unpadded(t)
  {
    var r := ReplaceChar(Strip(s), ',', '.');
    assert r != [] ==> r[0] == (if Strip(s)[0] == ',' then '.' else Strip(s)[0]);
    r
  }

  /** `_safe_float_conversion`; `parseFloat` is Python's `float(str)`, returning None
      where it raises ValueError. */
  function SafeFloat(value: Cell, parseFloat: string -> Option<real>): (r: Option<real>)
    ensures value.Missing? || value.Other? ==> r == None
    ensures value.Number? ==> r == Some(value.x)
  {
    match value
    case Missing => None
    case Number(x) => Some(x)
    case Text(s) => parseFloat(DecimalText(s))
    case Other => None
  }

  /** Normalising text a second time changes nothing. */
  lemma DecimalTextIdempotent(s: string)
    ensures DecimalText(DecimalText(s)) == DecimalText(s)
  {
    var t := DecimalText(s);
    StripUnpadded(t);
    assert ReplaceChar(t, ',', '.') == t;
  }

  /** A comma written as the decimal separator is read as a point, whatever whitespace
      surrounds the cell: the integer and fraction digits reach `float` unchanged. */
  lemma {:induction false} CommaDecimal(pad: string, whole: string, fraction: string, trail: string)
    requires AllSpace(pad) && AllSpace(trail)
    requires ',' !in whole && ',' !in fraction
    requires Unpadded(whole + "," + fraction)
    ensures DecimalText(pad + (whole + "," + fraction) + trail) == whole + "." + fraction
  {
    var s := whole + "," + fraction;
    StripRemovesPadding(pad, s, trail);
    var r := ReplaceChar(s, ',', '.');
    forall i | 0 <= i < |s| ensures r[i] == (whole + "." + fraction)[i] {
      if i < |whole| {
        assert s[i] == whole[i];
      } else if i > |whole| {
        assert s[i] == fraction[i - |whole| - 1];
      }
    }
  }

  /** A cell such as "75,5" (digits, a comma, digits) reaches `float` as "75.5", and a
      missing cell gives None whatever the parser. */
  lemma CommaDecimalCell(whole: string, fraction: string, parseFloat: string -> Option<real>)
    requires |whole| > 0 && AllDigits(whole) && |fraction| > 0 && AllDigits(fraction)
    ensures SafeFloat(Text(whole + "," + fraction), parseFloat) == parseFloat(whole + "." + fraction)
    ensures SafeFloat(Missing, parseFloat) == None
  {
    var s := whole + "," + fraction;
    assert DecimalText(s) == whole + "." + fraction by {
      assert Unpadded(s) by {
        assert s[0] == whole[0] && s[|s| - 1] == fraction[|fraction| - 1];
      }
      NoCommaInDigits(whole);
      NoCommaInDigits(fraction);
      CommaDecimal("", whole, fraction, "");
      assert "" + s + "" == s;
    }
  }

  lemma NoCommaInDigits(d: string)
    requires AllDigits(d)
    ensures ',' !in d
  {
  }
}
