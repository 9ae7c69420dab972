/** FinancialDataExtractor (src/extractor.py): the prompt built around a filing, and the
    sanitizing and flattening of the generated answer into rows. */
module Extractor {
  import opened Wrappers
  import opened Text
  import opened Records

  // ---------------------------------------------------------------------------------
  // Prompt

  /** `s.replace("\n", " ")` */
  function OneLine(s: string): (r: string)
    ensures '\n' !in r
    ensures |r| == |s|
    ensures forall k :: 0 <= k < |s| && s[k] != '\n' ==> r[k] == s[k]
    ensures forall k :: 0 <= k < |s| && s[k] == '\n' ==> r[k] == ' '
  {
    if s == [] then [] else [if s[0] == '\n' then ' ' else s[0]] + OneLine(s[1..])
  }

  /** The indentation the prompt template leaves before its QUESTION and PASSAGE lines. */
  const Indent: string := "                    "

  /** The prompt of `extract_from_file`.  `preamble` is the template's fixed instruction
      text, everything before "QUESTION: ". */
  function BuildPrompt(preamble: string, query: string, passage: string): string {
    preamble + "QUESTION: " + OneLine(query) + "\n" + Indent + "PASSAGE: " + OneLine(passage) + "\n" + Indent
  }

  /** `extract_from_file`: `passage` is the text read from the file, `generate` stands for the
      generative model and answers a prompt with the text of its response. */
  function ExtractFromFile(passage: string, query: string, preamble: string, generate: string -> string): string {
    generate(BuildPrompt(preamble, query, passage))
  }

  // ---------------------------------------------------------------------------------
  // Response sanitizer

  /** `line.startswith("```")`: the line as it is, with no trimming first. */
  predicate IsFence(line: string) {
    StartsWith(line, "```")
  }

  /** `[line for line in lines if not line.startswith("```")]` */
  function KeepLines(lines: seq<string>): seq<string> {
    if lines == [] then []
    else (if IsFence(lines[0]) then [] else [lines[0]]) + KeepLines(lines[1..])
  }

  /** `"\n".join(json_lines).strip()` over the kept lines of `json_text.splitlines()`. */
  function Sanitize(text: string): (r: string)
    ensures r != [] ==> !IsSpace(r[0]) && !IsSpace(r[|r| - 1])
  {
    Strip(Join(KeepLines(SplitLines(text)), "\n"))
  }

  // ---------------------------------------------------------------------------------
  // Flattener

  /** Why `process_and_flatten` raised: `json.loads` rejected the cleaned text, a level of the
      payload was not an object (`.items()` or `**values` on something that is not a dict), or
      there was no leaf at all, so the frame has no Statement, Year and Item columns to index. */
  datatype FlattenError = MalformedPayload(doc: string) | ShapeViolation | NoColumns

  /** The members of an object; no members for any other value. */
  function Members(j: Json): seq<(string, Json)> {
    if j.JObject? then j.members else []
  }

  /** The three path columns a row starts from. */
  function PathColumns(statement: string, year: string, item: string): Row {
    [("Statement", JString(statement)), ("Year", JString(year)), ("Item", JString(item))]
  }

  /** `{'Statement': statement, 'Year': year, 'Item': item, **values}` */
  function LeafRow(statement: string, year: string, item: string, values: seq<(string, Json)>): Row {
    Overlay(PathColumns(statement, year, item), values)
  }

  /** The rows of one year, one per item, in item order. */
  function ItemRows(statement: string, year: string, items: seq<(string, Json)>): seq<Row>
    decreases |items|
  {
    if items == [] then []
    else
      var n := |items| - 1;
      ItemRows(statement, year, items[..n]) + [LeafRow(statement, year, items[n].0, Members(items[n].1))]
  }

  /** The rows of one statement, year after year. */
  function YearRows(statement: string, years: seq<(string, Json)>): seq<Row>
    decreases |years|
  {
    if years == [] then []
    else
      var n := |years| - 1;
      YearRows(statement, years[..n]) + ItemRows(statement, years[n].0, Members(years[n].1))
  }

  /** The rows of the whole payload, statement after statement. */
  function StatementRows(statements: seq<(string, Json)>): seq<Row>
    decreases |statements|
  {
    if statements == [] then []
    else
      var n := |statements| - 1;
      StatementRows(statements[..n]) + YearRows(statements[n].0, Members(statements[n].1))
  }

  /** Every item value is an object. */
  predicate ItemsShaped(items: seq<(string, Json)>)
    decreases |items|
  {
    items == [] || (ItemsShaped(items[..|items| - 1]) && items[|items| - 1].1.JObject?)
  }

  /** Every year value is an object whose item values are objects. */
  predicate YearsShaped(years: seq<(string, Json)>)
    decreases |years|
  {
    || years == []
    || (var n := |years| - 1;
        YearsShaped(years[..n]) && years[n].1.JObject? && ItemsShaped(years[n].1.members))
  }

  /** Every statement value is an object whose year values are shaped. */
  predicate StatementsShaped(statements: seq<(string, Json)>)
    decreases |statements|
  {
    || statements == []
    || (var n := |statements| - 1;
        StatementsShaped(statements[..n]) && statements[n].1.JObject? && YearsShaped(statements[n].1.members))
  }

  /** The payload, every statement value, every year value and every item value are objects. */
  predicate WellShaped(data: Json) {
    data.JObject? && StatementsShaped(data.members)
  }

  /** The three nested loops over a parsed payload. */
  function Flatten(data: Json): Result<seq<Row>, FlattenError> {
    if WellShaped(data) then Ok(StatementRows(data.members)) else Err(ShapeViolation)
  }

  /** `pd.DataFrame(rows).set_index(['Statement', 'Year', 'Item'])`, the frame as its rows: it
      fails on an empty list, whose frame has no columns. */
  function ToFrame(rows: seq<Row>): Result<seq<Row>, FlattenError> {
    if rows == [] then Err(NoColumns) else Ok(rows)
  }

  /** `process_and_flatten(json_text)`: `loads` stands for `json.loads`. */
  function FlattenResponse(text: string, loads: string -> Option<Json>): Result<seq<Row>, FlattenError> {
    var cleaned := Sanitize(text);
    match loads(cleaned)
    case None => Err(MalformedPayload(cleaned))
    case Some(data) =>
      match Flatten(data)
      case Err(e) => Err(e)
      case Ok(rows) => ToFrame(rows)
  }

  /** A shaped item list has an object at every position. */
  lemma {:induction false} ItemsShapedAt(items: seq<(string, Json)>, k: nat)
    requires k < |items|
    ensures ItemsShaped(items) ==> items[k].1.JObject?
    decreases |items|
  {
    var n := |items| - 1;
    if k < n {
      ItemsShapedAt(items[..n], k);
    }
  }

  lemma {:induction false} YearsShapedAt(years: seq<(string, Json)>, j: nat)
    requires j < |years|
    ensures YearsShaped(years) ==> years[j].1.JObject? && ItemsShaped(years[j].1.members)
    decreases |years|
  {
    var n := |years| - 1;
    if j < n {
      YearsShapedAt(years[..n], j);
    }
  }

  lemma {:induction false} StatementsShapedAt(statements: seq<(string, Json)>, i: nat)
    requires i < |statements|
    ensures StatementsShaped(statements) ==> statements[i].1.JObject? && YearsShaped(statements[i].1.members)
    decreases |statements|
  {
    var n := |statements| - 1;
    if i < n {
      StatementsShapedAt(statements[..n], i);
    }
  }

  lemma ItemStep(statement: string, year: string, items: seq<(string, Json)>, k: nat)
    requires k < |items|
    requires ItemsShaped(items[..k]) && items[k].1.JObject?
    ensures ItemsShaped(items[..k + 1])
    ensures ItemRows(statement, year, items[..k + 1]) ==
            ItemRows(statement, year, items[..k]) + [LeafRow(statement, year, items[k].0, items[k].1.members)]
  {
    assert items[..k + 1][..k] == items[..k];
  }

  lemma YearStep(statement: string, years: seq<(string, Json)>, j: nat)
    requires j < |years|
    requires YearsShaped(years[..j]) && years[j].1.JObject? && ItemsShaped(years[j].1.members)
    ensures YearsShaped(years[..j + 1])
    ensures YearRows(statement, years[..j + 1]) ==
            YearRows(statement, years[..j]) + ItemRows(statement, years[j].0, years[j].1.members)
  {
    assert years[..j + 1][..j] == years[..j];
  }

  /** One pass of the middle loop over a well-shaped year: its rows extend the rows so far. */
  lemma YearExtend(statement: string, years: seq<(string, Json)>, j: nat, flattened: seq<Row>, rows: seq<Row>)
    requires j < |years| && years[j].1.JObject? && ItemsShaped(years[j].1.members)
    requires YearsShaped(years[..j]) && rows == flattened + YearRows(statement, years[..j])
    ensures YearsShaped(years[..j + 1])
    ensures rows + ItemRows(statement, years[j].0, years[j].1.members) ==
            flattened + YearRows(statement, years[..j + 1])
  {
    YearStep(statement, years, j);
    ExtendRows(flattened, YearRows(statement, years[..j]), rows,
               ItemRows(statement, years[j].0, years[j].1.members), YearRows(statement, years[..j + 1]));
  }

  /** Appending to rows that extend `flattened` by `prev` extends it by `prev` and the new rows. */
  lemma ExtendRows<T>(flattened: seq<T>, prev: seq<T>, rows: seq<T>, added: seq<T>, whole: seq<T>)
    requires rows == flattened + prev && whole == prev + added
    ensures rows + added == flattened + whole
  {
  }

  lemma StatementStep(statements: seq<(string, Json)>, i: nat)
    requires i < |statements|
    requires StatementsShaped(statements[..i]) && statements[i].1.JObject? && YearsShaped(statements[i].1.members)
    ensures StatementsShaped(statements[..i + 1])
    ensures StatementRows(statements[..i + 1]) ==
            StatementRows(statements[..i]) + YearRows(statements[i].0, statements[i].1.members)
  {
    assert statements[..i + 1][..i] == statements[..i];
  }

  /** The innermost loop of `process_and_flatten`: appends one row per item of one year to
      `flattened`, or fails at the first item value that is not an object. */
  method AppendItemRows(statement: string, year: string, itemList: seq<(string, Json)>, flattened: seq<Row>)
    returns (result: Option<seq<Row>>)
    ensures result == if ItemsShaped(itemList) then Some(flattened + ItemRows(statement, year, itemList)) else None
  {
    var rows := flattened;
    for k := 0 to |itemList|
      invariant ItemsShaped(itemList[..k])
      invariant rows == flattened + ItemRows(statement, year, itemList[..k])
    {
      var item, values := itemList[k].0, itemList[k].1;
      if !values.JObject? {
        ItemsShapedAt(itemList, k);
        return None;
      }
      ItemStep(statement, year, itemList, k);
      rows := rows + [LeafRow(statement, year, item, values.members)];
    }
    assert itemList[..|itemList|] == itemList;
    return Some(rows);
  }

  /** The middle loop: the rows of every year of one statement, in year order. */
  method AppendYearRows(statement: string, yearList: seq<(string, Json)>, flattened: seq<Row>)
    returns (result: Option<seq<Row>>)
    ensures result == if YearsShaped(yearList) then Some(flattened + YearRows(statement, yearList)) else None
  {
    var rows := flattened;
    for j := 0 to |yearList|
      invariant YearsShaped(yearList[..j])
      invariant rows == flattened + YearRows(statement, yearList[..j])
    {
      var year, items := yearList[j].0, yearList[j].1;
      if !items.JObject? {
        YearsShapedAt(yearList, j);
        return None;
      }
      var extended := AppendItemRows(statement, year, items.members, rows);
      if extended.None? {
        YearsShapedAt(yearList, j);
        return None;
      }
      YearExtend(statement, yearList, j, flattened, rows);
      rows := extended.value;
    }
    assert yearList[..|yearList|] == yearList;
    return Some(rows);
  }

  /** `process_and_flatten`: sanitize, parse, then walk statement, year and item, appending one
      row per leaf; the first value that is not an object aborts the whole call, and so does a
      payload without leaves. */
  method ProcessAndFlatten(jsonText: string, loads: string -> Option<Json>)
    returns (result: Result<seq<Row>, FlattenError>)
    ensures result == FlattenResponse(jsonText, loads)
  {
    var cleaned := Sanitize(jsonText);
    var parsed := loads(cleaned);
    if parsed.None? {
      return Err(MalformedPayload(cleaned));
    }
    var data := parsed.value;
    if !data.JObject? {
      return Err(ShapeViolation);
    }
    var statements := data.members;
    var flattened: seq<Row> := [];
    for i := 0 to |statements|
      invariant StatementsShaped(statements[..i])
      invariant flattened == StatementRows(statements[..i])
    {
      var statement, years := statements[i].0, statements[i].1;
      if !years.JObject? {
        StatementsShapedAt(statements, i);
        return Err(ShapeViolation);
      }
      var extended := AppendYearRows(statement, years.members, flattened);
      if extended.None? {
        StatementsShapedAt(statements, i);
        return Err(ShapeViolation);
      }
      StatementStep(statements, i);
      flattened := extended.value;
    }
    assert statements[..|statements|] == statements;
    if flattened == [] {
      return Err(NoColumns);
    }
    return Ok(flattened);
  }

  // ---------------------------------------------------------------------------------
  // Properties of the prompt

  /** Flattening is the identity exactly on text without "\n", and so is idempotent. */
  lemma OneLineFixedPoint(s: string)
    ensures OneLine(s) == s <==> '\n' !in s
    ensures OneLine(OneLine(s)) == OneLine(s)
  {
    if '\n' in s {
      var k :| 0 <= k < |s| && s[k] == '\n';
      assert OneLine(s)[k] != s[k];
    }
  }

  /** Whatever "\n" the query and the passage held, the question ends the last line of
      the preamble and the passage fills a line of its own, followed by the closing indentation. */
  lemma PromptLayout(preamble: string, query: string, passage: string)
    ensures var lines := SplitOn(BuildPrompt(preamble, query, passage), '\n');
            var head := SplitOn(preamble, '\n');
            lines == head[..|head| - 1]
                     + [head[|head| - 1] + "QUESTION: " + OneLine(query),
                        Indent + "PASSAGE: " + OneLine(passage),
                        Indent]
  {
    var q := "QUESTION: " + OneLine(query);
    var p := Indent + "PASSAGE: " + OneLine(passage);
    assert '\n' !in q && '\n' !in p && '\n' !in Indent;
    assert BuildPrompt(preamble, query, passage) == preamble + q + "\n" + p + "\n" + Indent;
    SplitOnLayout(preamble, q, p, Indent, '\n');
    var head := SplitOn(preamble, '\n');
    assert head[|head| - 1] + q == head[|head| - 1] + "QUESTION: " + OneLine(query);
  }

  // ---------------------------------------------------------------------------------
  // Properties of the sanitizer

  /** Only lines whose first three characters are backticks are fences. */
  lemma FenceExamples()
    ensures IsFence("```") && IsFence("```json")
    ensures !IsFence(" ```json") && !IsFence("  \"note\": \"uses ``` inline\"") && !IsFence("``")
  {
    assert " ```json"[..3] != "```" by { assert " ```json"[0] == ' '; }
    assert "  \"note\": \"uses ``` inline\""[..3] != "```" by { assert "  \"note\": \"uses ``` inline\""[0] == ' '; }
  }

  /** The filter keeps exactly the non-fence lines. */
  lemma {:induction false} KeepLinesMembers(lines: seq<string>, line: string)
    ensures line in KeepLines(lines) <==> line in lines && !IsFence(line)
  {
    if lines != [] {
      KeepLinesMembers(lines[1..], line);
      assert lines == [lines[0]] + lines[1..];
    }
  }

  /** The filter works line by line: kept lines stay in their relative order. */
  lemma {:induction false} KeepLinesAppend(a: seq<string>, b: seq<string>)
    ensures KeepLines(a + b) == KeepLines(a) + KeepLines(b)
  {
    if a != [] {
      KeepLinesAppend(a[1..], b);
      assert (a + b)[0] == a[0];
      assert (a + b)[1..] == a[1..] + b;
    } else {
      assert a + b == b;
    }
  }

  /** Before trimming, the sanitized text is the kept lines separated by single "\n":
      splitting it at "\n" gives back exactly those lines. */
  lemma KeptLinesJoined(text: string)
    ensures var kept := KeepLines(SplitLines(text));
            kept != [] ==> SplitOn(Join(kept, "\n"), '\n') == kept
  {
    var lines := SplitLines(text);
    var kept := KeepLines(lines);
    if kept != [] {
      forall k | 0 <= k < |kept| ensures '\n' !in kept[k] {
        KeepLinesMembers(lines, kept[k]);
        var m :| 0 <= m < |lines| && lines[m] == kept[k];
        assert NoLineBreak(lines[m]);
        assert IsLineBreak('\n');
      }
      SplitOnJoin(kept, '\n');
    }
  }

  // ---------------------------------------------------------------------------------
  // Properties of the flattener

  /** A row holds every entry of its leaf; Statement, Year and Item read the path keys unless
      the leaf has a key of that name, whose value then wins. */
  lemma LeafRowLookup(statement: string, year: string, item: string, values: seq<(string, Json)>, k: string)
    ensures Lookup(LeafRow(statement, year, item, values), k) ==
            if HasKey(values, k) then Lookup(values, k)
            else if k == "Item" then Some(JString(item))
            else if k == "Year" then Some(JString(year))
            else if k == "Statement" then Some(JString(statement))
            else None
  {
    OverlayLookup(PathColumns(statement, year, item), values, k);
    PathLookup(statement, year, item, k);
  }

  lemma PathLookup(statement: string, year: string, item: string, k: string)
    ensures Lookup(PathColumns(statement, year, item), k) ==
            if k == "Item" then Some(JString(item))
            else if k == "Year" then Some(JString(year))
            else if k == "Statement" then Some(JString(statement))
            else None
  {
    var base := PathColumns(statement, year, item);
    var two, one := base[..2], base[..1];
    assert two[..1] == one && one[..0] == [];
    assert Lookup(base, k) == if k == "Item" then Some(JString(item)) else Lookup(two, k);
    assert Lookup(two, k) == if k == "Year" then Some(JString(year)) else Lookup(one, k);
    assert Lookup(one, k) == if k == "Statement" then Some(JString(statement)) else None;
  }

  /** A row is a dict whose first three columns are Statement, Year and Item. */
  lemma LeafRowKeys(statement: string, year: string, item: string, values: seq<(string, Json)>)
    ensures var row := LeafRow(statement, year, item, values);
            |row| >= 3 && Keys(row)[..3] == ["Statement", "Year", "Item"] && DistinctKeys(row)
  {
    var base := PathColumns(statement, year, item);
    OverlayKeys(base, values);
    assert Keys(base) == ["Statement", "Year", "Item"];
  }

  /** One row per item, the k-th row built from the k-th item. */
  lemma {:induction false} ItemRowsAt(statement: string, year: string, items: seq<(string, Json)>)
    ensures |ItemRows(statement, year, items)| == |items|
    ensures forall k :: 0 <= k < |items| ==>
              ItemRows(statement, year, items)[k] == LeafRow(statement, year, items[k].0, Members(items[k].1))
    decreases |items|
  {
    if items != [] {
      var n := |items| - 1;
      var prev := ItemRows(statement, year, items[..n]);
      ItemRowsAt(statement, year, items[..n]);
      assert ItemRows(statement, year, items) == prev + [LeafRow(statement, year, items[n].0, Members(items[n].1))];
      forall k | 0 <= k < n
        ensures ItemRows(statement, year, items)[k] == LeafRow(statement, year, items[k].0, Members(items[k].1))
      {
        assert items[..n][k] == items[k];
        assert ItemRows(statement, year, items)[k] == prev[k];
      }
    }
  }

  lemma {:induction false} ItemRowsAppend(statement: string, year: string, a: seq<(string, Json)>, b: seq<(string, Json)>)
    ensures ItemRows(statement, year, a + b) == ItemRows(statement, year, a) + ItemRows(statement, year, b)
    decreases |b|
  {
    if b != [] {
      var n := |b| - 1;
      assert (a + b)[..|a + b| - 1] == a + b[..n];
      ItemRowsAppend(statement, year, a, b[..n]);
    } else {
      assert a + b == a;
    }
  }

  lemma {:induction false} YearRowsAppend(statement: string, a: seq<(string, Json)>, b: seq<(string, Json)>)
    ensures YearRows(statement, a + b) == YearRows(statement, a) + YearRows(statement, b)
    decreases |b|
  {
    if b != [] {
      var n := |b| - 1;
      assert (a + b)[..|a + b| - 1] == a + b[..n];
      YearRowsAppend(statement, a, b[..n]);
    } else {
      assert a + b == a;
    }
  }

  lemma {:induction false} StatementRowsAppend(a: seq<(string, Json)>, b: seq<(string, Json)>)
    ensures StatementRows(a + b) == StatementRows(a) + StatementRows(b)
    decreases |b|
  {
    if b != [] {
      var n := |b| - 1;
      assert (a + b)[..|a + b| - 1] == a + b[..n];
      StatementRowsAppend(a, b[..n]);
    } else {
      assert a + b == a;
    }
  }

  /** Traversal order within a statement: the rows of year j come after those of the earlier
      years and before those of the later ones. */
  lemma YearRowsAt(statement: string, years: seq<(string, Json)>, j: nat)
    requires j < |years|
    ensures YearRows(statement, years) ==
            YearRows(statement, years[..j]) + ItemRows(statement, years[j].0, Members(years[j].1))
            + YearRows(statement, years[j + 1..])
  {
    SplitAt(years, j);
    YearRowsAppend(statement, years[..j] + [years[j]], years[j + 1..]);
    YearRowsAppend(statement, years[..j], [years[j]]);
    assert [years[j]][..0] == [];
  }

  /** Traversal order of the payload: the rows of statement i come after those of the earlier
      statements and before those of the later ones. */
  lemma StatementRowsAt(statements: seq<(string, Json)>, i: nat)
    requires i < |statements|
    ensures StatementRows(statements) ==
            StatementRows(statements[..i]) + YearRows(statements[i].0, Members(statements[i].1))
            + StatementRows(statements[i + 1..])
  {
    var x := statements[i];
    var before, after := statements[..i], statements[i + 1..];
    SplitAt(statements, i);
    StatementRowsAppend(before + [x], after);
    StatementRowsAppend(before, [x]);
    assert [x][..0] == [];
    assert StatementRows([x]) == YearRows(x.0, Members(x.1));
  }

  /** Number of items summed over a statement's years. */
  function ItemCount(years: seq<(string, Json)>): nat {
    if years == [] then 0 else |Members(years[0].1)| + ItemCount(years[1..])
  }

  /** Number of items summed over all statements and years. */
  function LeafCount(statements: seq<(string, Json)>): nat {
    if statements == [] then 0 else ItemCount(Members(statements[0].1)) + LeafCount(statements[1..])
  }

  /** The rows of a statement begin with those of its first year. */
  lemma YearRowsHead(statement: string, years: seq<(string, Json)>)
    requires years != []
    ensures YearRows(statement, years) ==
            ItemRows(statement, years[0].0, Members(years[0].1)) + YearRows(statement, years[1..])
  {
    var x, rest := years[0], years[1..];
    YearRowsAppend(statement, [x], rest);
    assert YearRows(statement, [x]) == ItemRows(statement, x.0, Members(x.1)) by {
      assert [x][..0] == [];
    }
    assert [x] + rest == years;
  }

  /** The rows of the payload begin with those of its first statement. */
  lemma StatementRowsHead(statements: seq<(string, Json)>)
    requires statements != []
    ensures StatementRows(statements) ==
            YearRows(statements[0].0, Members(statements[0].1)) + StatementRows(statements[1..])
  {
    var x, rest := statements[0], statements[1..];
    StatementRowsAppend([x], rest);
    assert StatementRows([x]) == YearRows(x.0, Members(x.1)) by {
      assert [x][..0] == [];
    }
    assert [x] + rest == statements;
  }

  lemma {:induction false} YearRowsCount(statement: string, years: seq<(string, Json)>)
    ensures |YearRows(statement, years)| == ItemCount(years)
  {
    if years != [] {
      YearRowsHead(statement, years);
      ItemRowsAt(statement, years[0].0, Members(years[0].1));
      YearRowsCount(statement, years[1..]);
    }
  }

  /** One row per (statement, year, item) triple. */
  lemma {:induction false} StatementRowsCount(statements: seq<(string, Json)>)
    ensures |StatementRows(statements)| == LeafCount(statements)
  {
    if statements != [] {
      StatementRowsHead(statements);
      YearRowsCount(statements[0].0, Members(statements[0].1));
      StatementRowsCount(statements[1..]);
    }
  }

  lemma {:induction false} ItemsShapedIff(items: seq<(string, Json)>)
    ensures ItemsShaped(items) <==> forall k :: 0 <= k < |items| ==> items[k].1.JObject?
    decreases |items|
  {
    forall k | 0 <= k < |items| ensures ItemsShaped(items) ==> items[k].1.JObject? {
      ItemsShapedAt(items, k);
    }
    if items != [] {
      var n := |items| - 1;
      ItemsShapedIff(items[..n]);
      assert forall k :: 0 <= k < n ==> items[..n][k] == items[k];
    }
  }

  lemma {:induction false} YearsShapedIff(years: seq<(string, Json)>)
    ensures YearsShaped(years) <==>
            forall j :: 0 <= j < |years| ==> years[j].1.JObject? && ItemsShaped(years[j].1.members)
    decreases |years|
  {
    forall j | 0 <= j < |years| ensures YearsShaped(years) ==> years[j].1.JObject? && ItemsShaped(years[j].1.members) {
      YearsShapedAt(years, j);
    }
    if years != [] {
      var n := |years| - 1;
      YearsShapedIff(years[..n]);
      assert forall j :: 0 <= j < n ==> years[..n][j] == years[j];
    }
  }

  lemma {:induction false} StatementsShapedIff(statements: seq<(string, Json)>)
    ensures StatementsShaped(statements) <==>
            forall i :: 0 <= i < |statements| ==> statements[i].1.JObject? && YearsShaped(statements[i].1.members)
    decreases |statements|
  {
    forall i | 0 <= i < |statements|
      ensures StatementsShaped(statements) ==> statements[i].1.JObject? && YearsShaped(statements[i].1.members)
    {
      StatementsShapedAt(statements, i);
    }
    if statements != [] {
      var n := |statements| - 1;
      StatementsShapedIff(statements[..n]);
      assert forall i :: 0 <= i < n ==> statements[..n][i] == statements[i];
    }
  }

  /** A statement value is shaped exactly when each of its year values is an object whose
      item values are objects. */
  lemma YearsShapedDeep(years: seq<(string, Json)>)
    ensures YearsShaped(years) <==>
            forall j :: 0 <= j < |years| ==>
              && years[j].1.JObject?
              && forall k :: 0 <= k < |Members(years[j].1)| ==> Members(years[j].1)[k].1.JObject?
  {
    YearsShapedIff(years);
    forall j | 0 <= j < |years|
      ensures ItemsShaped(Members(years[j].1)) <==>
              forall k :: 0 <= k < |Members(years[j].1)| ==> Members(years[j].1)[k].1.JObject?
    {
      ItemsShapedIff(Members(years[j].1));
    }
  }

  /** Flattening fails as a whole, not per leaf: it succeeds exactly when the payload, every
      statement value, every year value and every item value are objects, and then it gives
      one row per item. */
  lemma FlattenSucceedsIff(data: Json)
    ensures Flatten(data).Ok? <==>
            && data.JObject?
            && forall i :: 0 <= i < |data.members| ==>
                 && data.members[i].1.JObject?
                 && forall j :: 0 <= j < |Members(data.members[i].1)| ==>
                      && Members(data.members[i].1)[j].1.JObject?
                      && forall k :: 0 <= k < |Members(Members(data.members[i].1)[j].1)| ==>
                           Members(Members(data.members[i].1)[j].1)[k].1.JObject?
    ensures Flatten(data).Ok? ==> |Flatten(data).value| == LeafCount(data.members)
  {
    if data.JObject? {
      var sts := data.members;
      StatementsShapedIff(sts);
      forall i | 0 <= i < |sts|
        ensures YearsShaped(Members(sts[i].1)) <==>
                forall j :: 0 <= j < |Members(sts[i].1)| ==>
                  && Members(sts[i].1)[j].1.JObject?
                  && forall k :: 0 <= k < |Members(Members(sts[i].1)[j].1)| ==>
                       Members(Members(sts[i].1)[j].1)[k].1.JObject?
      {
        YearsShapedDeep(Members(sts[i].1));
      }
      StatementRowsCount(sts);
    }
  }

  /** The response yields a frame exactly when its sanitized text parses, the payload is well
      shaped and it has at least one leaf; the frame then holds one row per leaf. */
  lemma FlattenResponseOk(text: string, loads: string -> Option<Json>)
    ensures var parsed := loads(Sanitize(text));
            FlattenResponse(text, loads).Ok? <==>
              parsed.Some? && WellShaped(parsed.value) && LeafCount(parsed.value.members) > 0
    ensures FlattenResponse(text, loads).Ok? ==>
              FlattenResponse(text, loads).value == StatementRows(loads(Sanitize(text)).value.members)
  {
    var parsed := loads(Sanitize(text));
    if parsed.Some? && WellShaped(parsed.value) {
      StatementRowsCount(parsed.value.members);
    }
  }

  /** The example payload of the prompt template, cut to one leaf, flattens to one row. */
  lemma BalanceSheetExample()
    ensures Flatten(JObject([("Balance Sheet", JObject([("2023", JObject([("Total Assets",
              JObject([("value", JString("100,000")), ("unit", JString("million USD"))]))]))]))]))
         == Ok([[("Statement", JString("Balance Sheet")), ("Year", JString("2023")),
                 ("Item", JString("Total Assets")), ("value", JString("100,000")),
                 ("unit", JString("million USD"))]])
  {
    var value := ("value", JString("100,000"));
    var unit := ("unit", JString("million USD"));
    var base := [("Statement", JString("Balance Sheet")), ("Year", JString("2023")), ("Item", JString("Total Assets"))];
    assert "Statement" != "value" && "Year" != "value" && "Item" != "value";
    assert "Statement" != "unit" && "Year" != "unit" && "Item" != "unit" && "value" != "unit" by {
      assert "Item"[0] != "unit"[0];
      assert "Year"[0] != "unit"[0];
    }
    assert !HasKey(base, "value");
    assert Overlay(base, [value]) == base + [value] by {
      assert [value][..0] == [];
    }
    assert !HasKey(base + [value], "unit");
    assert [value, unit][..1] == [value];
    var row := LeafRow("Balance Sheet", "2023", "Total Assets", [value, unit]);
    assert row == base + [value, unit];
    var items := [("Total Assets", JObject([value, unit]))];
    assert items[..0] == [];
    assert ItemRows("Balance Sheet", "2023", items) == [row];
    var years := [("2023", JObject(items))];
    assert years[..0] == [];
    assert YearRows("Balance Sheet", years) == [row];
    var sts := [("Balance Sheet", JObject(years))];
    assert sts[..0] == [];
    assert StatementRows(sts) == [row];
    assert ItemsShaped(items) && YearsShaped(years) && StatementsShaped(sts);
    assert row == [("Statement", JString("Balance Sheet")), ("Year", JString("2023")),
                   ("Item", JString("Total Assets")), value, unit];
  }

  /** One item value that is not an object voids the rows of its well-formed siblings too. */
  lemma NoPartialRows()
    ensures Flatten(JObject([("Balance Sheet", JObject([("2023", JObject([
              ("Total Assets", JObject([("value", JString("100,000")), ("unit", JString("million USD"))])),
              ("Total Liabilities", JString("45,000"))]))]))]))
         == Err(ShapeViolation)
  {
  }
}
