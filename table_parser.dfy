/**
 * Table shaping: the rows of an OCR'd HTML table, already split into cell
 * texts, become invoice entries, a Janzour footer, or Janzour service
 * entries. Parsing the HTML itself (BeautifulSoup) is not modelled: each
 * line of the document comes with its tag-free text, and a table comes as
 * its header texts and the `td` cells of each row.
 */
module TableParser {
  import opened Wrappers
  import opened Strings
  import opened TableText

  const TotalLabel := "المبلغ الإجمالي"
  const InvoiceTotalWord := "الإجمالي"
  const InvoiceSumWord := "المجموع"
  const NetLabel := "الصافي"

  /** One line of the document and its text with tags removed and stripped. */
  datatype Line = Line(raw: string, text: string)

  /** A `td` cell: its stripped text and whether it carries a `colspan` attribute. */
  datatype Cell = Cell(text: string, colspan: bool)

  /** A table: the `th` texts of its header row and the cells of each row. */
  datatype Table = Table(headers: seq<string>, rows: seq<seq<Cell>>)

  /**
   * A value in an entry. Numbers are kept as the text they are read from:
   * `Amount(t)` is `float(t)` (0.0 for an empty or malformed text) and
   * `Formatted(t)` holds the raw cell `t`; its rendering strips the commas
   * from `t`, then gives the three-decimal, comma-grouped form of `float()`
   * of the rest (`t` itself when that fails).
   */
  datatype Value = Text(s: string) | Amount(clean: string) | Formatted(raw: string) | Qty(n: int)

  type Entry = map<string, Value>

  datatype Totals = Totals(total: string, paid: string, amountDue: string)

  /** The dictionary `html_table_to_json` returns. */
  datatype TableJson =
    | NoEntries
    | Invoice(category: Option<string>, entries: seq<Entry>)
    | Footer(totals: Option<Totals>)
    | Services(section: string, columns: seq<string>, entries: seq<Entry>)

  function Texts(cells: seq<Cell>): (r: seq<string>)
    ensures |r| == |cells| && forall i :: 0 <= i < |cells| ==> r[i] == cells[i].text
  {
    seq(|cells|, i requires 0 <= i < |cells| => cells[i].text)
  }

  function CellTexts(rows: seq<seq<Cell>>): (r: seq<seq<string>>)
    ensures |r| == |rows| && forall i :: 0 <= i < |rows| ==> r[i] == Texts(rows[i])
  {
    seq(|rows|, i requires 0 <= i < |rows| => Texts(rows[i]))
  }

  /** `s` without any character of `cs`, order kept. */
  function Remove(s: string, cs: set<char>): (r: string)
    ensures forall c :: c in r <==> c in s && c !in cs
    decreases |s|
  {
    if s == [] then [] else (if s[0] in cs then [] else [s[0]]) + Remove(s[1..], cs)
  }

  /** A dictionary filled key by key, a later key overwriting an earlier equal one. */
  function Assign(keys: seq<string>, vals: seq<Value>): (m: Entry)
    requires |keys| == |vals|
    ensures forall k :: k in m <==> k in keys
    decreases |keys|
  {
    if keys == [] then map[]
    else Assign(keys[..|keys| - 1], vals[..|vals| - 1])[keys[|keys| - 1] := vals[|vals| - 1]]
  }

  /** Each key holds the value given with its last occurrence. */
  lemma {:induction false} AssignLast(keys: seq<string>, vals: seq<Value>, i: nat)
    requires |keys| == |vals| && i < |keys|
    requires forall j :: i < j < |keys| ==> keys[j] != keys[i]
    ensures Assign(keys, vals)[keys[i]] == vals[i]
    decreases |keys|
  {
    var n := |keys| - 1;
    if i < n {
      var front, values := keys[..n], vals[..n];
      assert front[i] == keys[i] && values[i] == vals[i];
      assert forall j :: i < j < n ==> front[j] == keys[j];
      AssignLast(front, values, i);
      assert keys[n] != keys[i];
      assert Assign(keys, vals) == Assign(front, values)[keys[n] := vals[n]];
    }
  }

  // ---------------------------------------------------------------------
  // The section name above a table

  /** The index of the first line holding the opening `<table`. */
  function TableStart(lines: seq<Line>): (k: nat)
    ensures k <= |lines|
    ensures forall i :: 0 <= i < k ==> !Contains(lines[i].raw, "<table")
    ensures k < |lines| ==> Contains(lines[k].raw, "<table")
    decreases |lines|
  {
    if lines == [] || Contains(lines[0].raw, "<table") then 0 else 1 + TableStart(lines[1..])
  }

  /** A line before the table that can name it: some text, and not the total label. */
  predicate TitleLine(l: Line) {
    !Contains(l.raw, TotalLabel) && l.text != ""
  }

  /** The last title line's text, or the empty string. */
  function LastTitle(lines: seq<Line>): (r: string)
    ensures r == "" <==> forall i :: 0 <= i < |lines| ==> !TitleLine(lines[i])
    ensures r != "" ==> exists i :: 0 <= i < |lines| && IsLastTitle(lines, i) && r == lines[i].text
    decreases |lines|
  {
    if lines == [] then ""
    else
      var n := |lines| - 1;
      if TitleLine(lines[n]) then
        assert IsLastTitle(lines, n);
        lines[n].text
      else
        var r := LastTitle(lines[..n]);
        assert forall i :: 0 <= i < n ==> lines[..n][i] == lines[i];
        if r != "" then
          var i :| 0 <= i < n && IsLastTitle(lines[..n], i) && r == lines[..n][i].text;
          assert IsLastTitle(lines, i);
          r
        else r
  }

  predicate IsLastTitle(lines: seq<Line>, i: int) {
    0 <= i < |lines| && TitleLine(lines[i]) && forall j :: i < j < |lines| ==> !TitleLine(lines[j])
  }

  /** The section detection of `html_table_to_json`: the last title line before the first `<table` line. */
  method SectionAbove(lines: seq<Line>) returns (section: string)
    ensures section == LastTitle(lines[..TableStart(lines)])
  {
    section := "";
    var i := 0;
    while i < |lines|
      invariant 0 <= i <= TableStart(lines)
      invariant section == LastTitle(lines[..i])
    {
      var line := lines[i];
      if Contains(line.raw, "<table") {
        break;
      }
      assert lines[..i + 1][..i] == lines[..i];
      if !Contains(line.raw, TotalLabel) && line.text != "" {
        section := line.text;
      }
      i := i + 1;
    }
  }

  /** The first line holding `target`. */
  function FirstContaining(lines: seq<Line>, target: string): (k: Option<nat>)
    ensures k.None? <==> forall i :: 0 <= i < |lines| ==> !Contains(lines[i].raw, target)
    ensures k.Some? ==> (k.value < |lines| && Contains(lines[k.value].raw, target)
                         && forall i :: 0 <= i < k.value ==> !Contains(lines[i].raw, target))
    decreases |lines|
  {
    if lines == [] then None
    else if Contains(lines[0].raw, target) then Some(0)
    else
      var k := FirstContaining(lines[1..], target);
      assert forall i :: 1 <= i < |lines| ==> lines[1..][i - 1] == lines[i];
      if k.Some? then Some(k.value + 1) else None
  }

  /** A line that `find_section_for_table` accepts: some text, and not the total label. */
  predicate NamesTable(l: Line) {
    l.text != "" && !Contains(l.text, TotalLabel)
  }

  /** The nearest line before `hi` that names a table. */
  function NearestName(lines: seq<Line>, hi: nat): (k: Option<nat>)
    requires hi <= |lines|
    ensures k.None? <==> forall j :: 0 <= j < hi ==> !NamesTable(lines[j])
    ensures k.Some? ==> (k.value < hi && NamesTable(lines[k.value])
                         && forall j :: k.value < j < hi ==> !NamesTable(lines[j]))
    decreases hi
  {
    if hi == 0 then None
    else if NamesTable(lines[hi - 1]) then Some(hi - 1)
    else NearestName(lines, hi - 1)
  }

  lemma FirstContainingAt(lines: seq<Line>, target: string, k: nat)
    requires k < |lines| && Contains(lines[k].raw, target)
    requires forall i :: 0 <= i < k ==> !Contains(lines[i].raw, target)
    ensures FirstContaining(lines, target) == Some(k)
  {
    var f := FirstContaining(lines, target);
    assert f.Some?;
    assert !(f.value < k) && !(f.value > k);
  }

  /** The first loop of `find_section_for_table`: the index of the first line holding the target. */
  method FindLine(lines: seq<Line>, target: string) returns (index: Option<nat>)
    ensures index == FirstContaining(lines, target)
  {
    var i := 0;
    while i < |lines|
      invariant 0 <= i <= |lines|
      invariant forall k :: 0 <= k < i ==> !Contains(lines[k].raw, target)
    {
      if Contains(lines[i].raw, target) {
        FirstContainingAt(lines, target, i);
        return Some(i);
      }
      i := i + 1;
    }
    return None;
  }

  /** The second loop: walking up from the table line to the nearest naming line. */
  method NameAbove(lines: seq<Line>, index: nat) returns (r: Option<string>)
    requires index <= |lines|
    ensures r == if NearestName(lines, index).None? then None else Some(lines[NearestName(lines, index).value].text)
  {
    var j := index - 1;
    while j >= 0
      invariant -1 <= j < index
      invariant NearestName(lines, index) == NearestName(lines, j + 1)
    {
      var line := lines[j].text;
      if line == "" || Contains(line, TotalLabel) {
        j := j - 1;
        continue;
      }
      return Some(line);
    }
    return None;
  }

  /** `find_section_for_table`: the nearest naming line above the first line holding the stripped table. */
  method FindSectionForTable(lines: seq<Line>, tableHtml: string) returns (r: Option<string>)
    ensures var t := FirstContaining(lines, Strip(tableHtml));
      r == if t.None? then None
           else if NearestName(lines, t.value).None? then None
           else Some(lines[NearestName(lines, t.value).value].text)
  {
    var index := FindLine(lines, Strip(tableHtml));
    if index.None? {
      return None;
    }
    r := NameAbove(lines, index.value);
  }

  // ---------------------------------------------------------------------
  // Invoice tables

  /** The invoice header names and the entry keys they stand for. */
  function HeaderKey(h: string): string {
    if h == "القيمة" then "price"
    else if h == "البيان" then "service_name"
    else if h == "الرمز" then "code"
    else if h == "ت" then "qty"
    else if h == "أجل" then "due_amount"
    else if h == "تقدي" then "paid_amount"
    else h
  }

  /** The column of the price, whose value is reformatted. */
  predicate IsPriceColumn(key: string) {
    ToLower(key) == "price" || ToLower(key) == "القيمة"
  }

  function InvoiceValue(key: string, raw: string): Value {
    if IsPriceColumn(key) then Formatted(raw) else Text(raw)
  }

  /** An invoice row that becomes an entry: cells, no `colspan`, no total in its first cell, one cell per header. */
  predicate InvoiceRowKept(headers: seq<string>, tds: seq<Cell>) {
    tds != []
    && (forall i :: 0 <= i < |tds| ==> !tds[i].colspan)
    && !Contains(tds[0].text, InvoiceTotalWord) && !Contains(tds[0].text, InvoiceSumWord)
    && |tds| == |headers|
  }

  function InvoiceKeys(headers: seq<string>): (r: seq<string>)
    ensures |r| == |headers| && forall i :: 0 <= i < |headers| ==> r[i] == HeaderKey(headers[i])
  {
    seq(|headers|, i requires 0 <= i < |headers| => HeaderKey(headers[i]))
  }

  function InvoiceEntry(headers: seq<string>, tds: seq<Cell>): Entry
    requires |tds| == |headers|
  {
    var keys := InvoiceKeys(headers);
    Assign(keys, seq(|tds|, i requires 0 <= i < |tds| => InvoiceValue(keys[i], tds[i].text)))
  }

  /** What one invoice row gives: its entry when the row is kept. */
  function InvoiceRow(headers: seq<string>, tds: seq<Cell>): (r: Option<Entry>)
    ensures r.Some? <==> InvoiceRowKept(headers, tds)
  {
    if InvoiceRowKept(headers, tds) then Some(InvoiceEntry(headers, tds)) else None
  }

  /** The present values, in order. */
  function Somes<T>(xs: seq<Option<T>>): seq<T>
    decreases |xs|
  {
    if xs == [] then []
    else Somes(xs[..|xs| - 1]) + (if xs[|xs| - 1].Some? then [xs[|xs| - 1].value] else [])
  }

  lemma {:induction false} SomesMembers<T>(xs: seq<Option<T>>, e: T)
    ensures e in Somes(xs) <==> Some(e) in xs
    decreases |xs|
  {
    if xs != [] {
      var n := |xs| - 1;
      SomesMembers(xs[..n], e);
      assert xs == xs[..n] + [xs[n]];
    }
  }

  function InvoiceResults(headers: seq<string>, rows: seq<seq<Cell>>): (r: seq<Option<Entry>>)
    ensures |r| == |rows| && forall i :: 0 <= i < |rows| ==> r[i] == InvoiceRow(headers, rows[i])
  {
    seq(|rows|, i requires 0 <= i < |rows| => InvoiceRow(headers, rows[i]))
  }

  /** The entries of an invoice table: one per kept row, in row order. */
  function InvoiceRows(headers: seq<string>, rows: seq<seq<Cell>>): seq<Entry> {
    Somes(InvoiceResults(headers, rows))
  }

  method InvoiceEntries(headers: seq<string>, rows: seq<seq<Cell>>) returns (entries: seq<Entry>)
    ensures entries == InvoiceRows(headers, rows)
  {
    entries := [];
    for i := 0 to |rows|
      invariant entries == Somes(InvoiceResults(headers, rows[..i]))
    {
      assert InvoiceResults(headers, rows[..i + 1])[..i] == InvoiceResults(headers, rows[..i]);
      var tds := rows[i];
      if tds == [] {
        continue;
      }
      var txt := tds[0].text;
      if (exists k :: 0 <= k < |tds| && tds[k].colspan) || Contains(txt, InvoiceTotalWord) || Contains(txt, InvoiceSumWord) {
        continue;
      }
      if |tds| != |headers| {
        continue;
      }
      entries := entries + [InvoiceEntry(headers, tds)];
    }
    assert rows[..|rows|] == rows;
  }

  /** Every invoice entry comes from a kept row, and every kept row gives an entry. */
  lemma InvoiceRowsFromRows(headers: seq<string>, rows: seq<seq<Cell>>, e: Entry)
    ensures e in InvoiceRows(headers, rows)
      <==> exists k :: 0 <= k < |rows| && InvoiceRow(headers, rows[k]) == Some(e)
  {
    var xs := InvoiceResults(headers, rows);
    SomesMembers(xs, e);
    if Some(e) in xs {
      var k :| 0 <= k < |xs| && xs[k] == Some(e);
      assert InvoiceRow(headers, rows[k]) == Some(e);
    }
  }

  /** An invoice entry has exactly the mapped header names as keys; a price cell is reformatted, any other kept as text. */
  lemma InvoiceEntryShape(headers: seq<string>, tds: seq<Cell>, i: nat)
    requires InvoiceRowKept(headers, tds) && i < |headers|
    requires forall j :: i < j < |headers| ==> HeaderKey(headers[j]) != HeaderKey(headers[i])
    ensures forall k :: k in InvoiceEntry(headers, tds) <==> k in InvoiceKeys(headers)
    ensures InvoiceEntry(headers, tds)[HeaderKey(headers[i])] == InvoiceValue(HeaderKey(headers[i]), tds[i].text)
  {
    var keys := InvoiceKeys(headers);
    AssignLast(keys, seq(|tds|, j requires 0 <= j < |tds| => InvoiceValue(keys[j], tds[j].text)), i);
  }

  // ---------------------------------------------------------------------
  // Janzour footer table

  /** A footer row: four cells, the last reading "الصافي". */
  predicate NetRow(cells: seq<string>) {
    |cells| == 4 && Strip(cells[3]) == NetLabel
  }

  /** The first index at or after `lo` whose flag is set. */
  function FirstSet(flags: seq<bool>, lo: nat): (k: Option<nat>)
    requires lo <= |flags|
    ensures k.None? <==> forall i :: lo <= i < |flags| ==> !flags[i]
    ensures k.Some? ==> (lo <= k.value < |flags| && flags[k.value]
                         && forall i :: lo <= i < k.value ==> !flags[i])
    decreases |flags| - lo
  {
    if lo == |flags| then None
    else if flags[lo] then Some(lo)
    else FirstSet(flags, lo + 1)
  }

  function NetFlags(rows: seq<seq<string>>): (flags: seq<bool>)
    ensures |flags| == |rows| && forall i :: 0 <= i < |rows| ==> flags[i] == NetRow(rows[i])
  {
    seq(|rows|, i requires 0 <= i < |rows| => NetRow(rows[i]))
  }

  /** The first net row. */
  function FirstNetRow(rows: seq<seq<string>>): (k: Option<nat>)
    ensures k.None? <==> forall i :: 0 <= i < |rows| ==> !NetRow(rows[i])
    ensures k.Some? ==> (k.value < |rows| && NetRow(rows[k.value])
                         && forall i :: 0 <= i < k.value ==> !NetRow(rows[i]))
  {
    var flags := NetFlags(rows);
    var k := FirstSet(flags, 0);
    assert k.Some? ==> flags[k.value];
    k
  }

  /** The text an amount is read from: spaces and commas removed. */
  function AmountText(v: string): (r: string)
    ensures ' ' !in r && ',' !in r
  {
    Remove(v, {' ', ','})
  }

  /** The footer of a four-column Janzour table: the three amounts of the first net row, or nothing. */
  function FooterOf(rows: seq<seq<string>>): (t: Option<Totals>)
    ensures t.None? <==> forall i :: 0 <= i < |rows| ==> !NetRow(rows[i])
  {
    var k := FirstNetRow(rows);
    if k.None? then None
    else Some(Totals(AmountText(rows[k.value][0]), AmountText(rows[k.value][1]), AmountText(rows[k.value][2])))
  }

  /** A net row preceded by no other net row gives the footer. */
  lemma FooterFromFirstNetRow(rows: seq<seq<string>>, k: nat)
    requires k < |rows| && NetRow(rows[k]) && forall i :: 0 <= i < k ==> !NetRow(rows[i])
    ensures FooterOf(rows) == Some(Totals(AmountText(rows[k][0]), AmountText(rows[k][1]), AmountText(rows[k][2])))
  {
    assert FirstNetRow(rows).Some?;
  }

  method FooterTotals(rows: seq<seq<string>>) returns (t: Option<Totals>)
    ensures t == FooterOf(rows)
  {
    for i := 0 to |rows|
      invariant forall k :: 0 <= k < i ==> !NetRow(rows[k])
    {
      var cells := rows[i];
      if |cells| != 4 {
        continue;
      }
      if Strip(cells[3]) == NetLabel {
        FooterFromFirstNetRow(rows, i);
        return Some(Totals(AmountText(cells[0]), AmountText(cells[1]), AmountText(cells[2])));
      }
    }
    return None;
  }

  // ---------------------------------------------------------------------
  // Janzour service tables

  const Keys8: seq<string> := ["company_price", "patient_price", "net_price", "time",
                               "date", "qty", "service_name", "code"]
  const Keys10: seq<string> := ["company_price", "patient_price", "net_price", "time",
                                "date", "unit_price", "qty", "unit", "service_name", "code"]
  const Keys11: seq<string> := ["company_price", "patient_price", "net_price", "time_to",
                                "date_to", "time_from", "date_from", "operation_type",
                                "qty", "service_name", "code"]

  /** The entry keys of a service table: fixed names for 8, 10 and 11 columns, the header texts otherwise. */
  function MappedHeaders(headers: seq<string>): (r: seq<string>)
    ensures |r| == |headers|
    ensures |headers| in {8, 10, 11} ==> "code" in r && "qty" in r && "company_price" in r
    ensures |headers| !in {8, 10, 11} ==> r == headers
  {
    if |headers| == 8 then Keys8
    else if |headers| == 10 then Keys10
    else if |headers| == 11 then Keys11
    else headers
  }

  predicate IsPriceKey(key: string) {
    key in {"company_price", "patient_price", "net_price", "unit_price"}
  }

  /** A cell read as a quantity: 0 when empty or not an integer. */
  function QtyOf(v: string): (n: int)
    ensures v == "" || ParseInt(v).None? ==> n == 0
  {
    if v == "" then 0 else ParseInt(v).GetOr(0)
  }

  function ServiceValue(key: string, v: string): Value {
    if IsPriceKey(key) then Amount(Remove(v, {',', ' ', '/'}))
    else if key == "qty" then Qty(QtyOf(v))
    else Text(v)
  }

  /** A row is padded with empty cells or cut to `n` cells. */
  function Shape(cells: seq<string>, n: nat): (r: seq<string>)
    ensures |r| == n
    ensures forall i :: 0 <= i < n ==> r[i] == (if i < |cells| then cells[i] else "")
  {
    if |cells| < n then cells + seq(n - |cells|, _ => "") else cells[..n]
  }

  /** A service row that becomes an entry: some non-empty cell, and no total label across its cells. */
  predicate ServiceRowKept(cells: seq<string>) {
    cells != [] && (exists i :: 0 <= i < |cells| && cells[i] != "") && !Contains(JoinWith("", cells), TotalLabel)
  }

  function ServiceEntry(keys: seq<string>, cells: seq<string>): Entry {
    var row := Shape(cells, |keys|);
    Assign(keys, seq(|keys|, i requires 0 <= i < |keys| => ServiceValue(keys[i], row[i])))
  }

  function ServiceRows(keys: seq<string>, rows: seq<seq<string>>): (r: seq<Entry>)
    ensures |r| <= |rows|
    decreases |rows|
  {
    if rows == [] then []
    else
      var n := |rows| - 1;
      ServiceRows(keys, rows[..n]) + (if ServiceRowKept(rows[n]) then [ServiceEntry(keys, rows[n])] else [])
  }

  /** `e.get("code", "")`. */
  function CodeOf(e: Entry): string {
    if "code" in e && e["code"].Text? then e["code"].s else ""
  }

  /** The entries whose code is not blank, in order. */
  function WithCode(es: seq<Entry>): (r: seq<Entry>)
    ensures |r| <= |es|
    ensures forall e :: e in r <==> e in es && Strip(CodeOf(e)) != ""
    decreases |es|
  {
    if es == [] then []
    else (if Strip(CodeOf(es[0])) != "" then [es[0]] else []) + WithCode(es[1..])
  }

  /** The loop over `zip(mapped_headers, cells)` that fills one entry. */
  method FillEntry(keys: seq<string>, row: seq<string>) returns (entry: Entry)
    requires |row| == |keys|
    ensures entry == Assign(keys, seq(|keys|, i requires 0 <= i < |keys| => ServiceValue(keys[i], row[i])))
  {
    entry := map[];
    for k := 0 to |keys|
      invariant entry == Assign(keys[..k], seq(k, j requires 0 <= j < k => ServiceValue(keys[j], row[j])))
    {
      assert keys[..k + 1][..k] == keys[..k];
      assert seq(k + 1, j requires 0 <= j < k + 1 => ServiceValue(keys[j], row[j]))[..k]
          == seq(k, j requires 0 <= j < k => ServiceValue(keys[j], row[j]));
      entry := entry[keys[k] := ServiceValue(keys[k], row[k])];
    }
    assert keys[..|keys|] == keys;
  }

  method ServiceEntries(keys: seq<string>, rows: seq<seq<string>>) returns (entries: seq<Entry>)
    ensures entries == WithCode(ServiceRows(keys, rows))
  {
    var all := [];
    for i := 0 to |rows|
      invariant all == ServiceRows(keys, rows[..i])
    {
      assert rows[..i + 1][..i] == rows[..i];
      var cells := rows[i];
      if cells == [] || forall k :: 0 <= k < |cells| ==> cells[k] == "" {
        continue;
      }
      if Contains(JoinWith("", cells), TotalLabel) {
        continue;
      }
      var entry := FillEntry(keys, Shape(cells, |keys|));
      all := all + [entry];
    }
    assert rows[..|rows|] == rows;
    entries := WithCode(all);
  }

  /** In a service entry every key gets the value of its (padded) cell: prices as amounts, the quantity as an integer. */
  lemma ServiceEntryShape(keys: seq<string>, cells: seq<string>, i: nat)
    requires i < |keys| && forall j :: i < j < |keys| ==> keys[j] != keys[i]
    ensures ServiceEntry(keys, cells)[keys[i]] == ServiceValue(keys[i], if i < |cells| then cells[i] else "")
  {
    var row := Shape(cells, |keys|);
    AssignLast(keys, seq(|keys|, j requires 0 <= j < |keys| => ServiceValue(keys[j], row[j])), i);
  }

  /** A quantity written as an integer is read back; anything else non-empty that is not an integer is 0. */
  lemma QtyReads(n: int, v: string)
    ensures ServiceValue("qty", ShowInt(n)) == Qty(n)
    ensures ParseInt(v).None? ==> ServiceValue("qty", v) == Qty(0)
  {
    ParseShowInt(n);
  }

  // ---------------------------------------------------------------------
  // The whole conversion

  /**
   * `html_table_to_json`: no table, or a mode other than "invoice" and
   * "janzour", gives no entries; "invoice" gives the invoice entries under
   * the section (None when empty); "janzour" gives the footer of a
   * four-column table and the service entries of any other.
   */
  method HtmlTableToJson(lines: seq<Line>, table: Option<Table>, mode: string) returns (r: TableJson)
    ensures table.None? || mode !in {"invoice", "janzour"} ==> r == NoEntries
    ensures table.Some? && mode == "invoice" ==>
      var section := LastTitle(lines[..TableStart(lines)]);
      r == Invoice(if section == "" then None else Some(section), InvoiceRows(table.value.headers, table.value.rows))
    ensures table.Some? && mode == "janzour" && |table.value.headers| == 4 ==>
      r == Footer(FooterOf(CellTexts(table.value.rows)))
    ensures table.Some? && mode == "janzour" && |table.value.headers| != 4 ==>
      var keys := MappedHeaders(table.value.headers);
      r == Services(LastTitle(lines[..TableStart(lines)]), keys, WithCode(ServiceRows(keys, CellTexts(table.value.rows))))
  {
    if table.None? {
      return NoEntries;
    }
    var section := SectionAbove(lines);
    var headers := table.value.headers;
    var rows := table.value.rows;
    if mode == "invoice" {
      var entries := InvoiceEntries(headers, rows);
      return Invoice(if section == "" then None else Some(section), entries);
    }
    var texts := CellTexts(rows);
    if |headers| == 4 && mode == "janzour" {
      var totals := FooterTotals(texts);
      return Footer(totals);
    }
    if mode == "janzour" {
      var keys := MappedHeaders(headers);
      var entries := ServiceEntries(keys, texts);
      return Services(section, keys, entries);
    }
    return NoEntries;
  }

  // ---------------------------------------------------------------------
  // Header tables

  function RowText(cells: seq<string>): string {
    JoinWith(" ", cells)
  }

  function RowTexts(rows: seq<seq<string>>): (r: seq<string>)
    ensures |r| == |rows| && forall i :: 0 <= i < |rows| ==> r[i] == RowText(rows[i])
  {
    seq(|rows|, i requires 0 <= i < |rows| => RowText(rows[i]))
  }

  /** `extract_plain_from_header_table`: one line per row, its cells joined by spaces; empty when there is no table. */
  method PlainFromHeaderTable(table: Option<seq<seq<string>>>) returns (text: string)
    ensures table.None? ==> text == ""
    ensures table.Some? ==> text == JoinWith("\n", RowTexts(table.value))
  {
    if table.None? {
      return "";
    }
    var rows := table.value;
    var parts: seq<string> := [];
    for i := 0 to |rows|
      invariant parts == RowTexts(rows[..i])
    {
      parts := parts + [RowText(rows[i])];
    }
    assert rows[..|rows|] == rows;
    text := JoinWith("\n", parts);
  }

  lemma {:induction false} JoinFree(sep: string, parts: seq<string>, c: char)
    requires c !in sep && forall i :: 0 <= i < |parts| ==> c !in parts[i]
    ensures c !in JoinWith(sep, parts)
    decreases |parts|
  {
    if |parts| > 1 {
      JoinFree(sep, parts[1..], c);
    }
  }

  /** The plain text of a header table splits back into its rows when no cell holds a newline. */
  lemma HeaderLinesAreRows(rows: seq<seq<string>>)
    requires rows != []
    requires forall i, j :: 0 <= i < |rows| && 0 <= j < |rows[i]| ==> '\n' !in rows[i][j]
    ensures SplitOn(JoinWith("\n", RowTexts(rows)), '\n') == RowTexts(rows)
  {
    var parts := RowTexts(rows);
    forall i | 0 <= i < |parts| ensures '\n' !in parts[i] {
      JoinFree(" ", rows[i], '\n');
    }
    SplitJoin(parts, '\n');
  }
}
