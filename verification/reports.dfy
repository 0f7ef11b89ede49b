/**
 * The report exporter (`Reports.jsx`): turns the nested sale or ledger groups the
 * report endpoint returns into fixed-width rows, for a PDF table and for an
 * Excel sheet. Only a group's first row carries its sequence number, date,
 * customer and total; later rows leave those cells empty.
 */
module Reports {
  import opened Wrappers
  import Lists

  datatype ReportKind = Sales | CustomerLedger
  datatype Encoding = Pdf | Excel

  /** One line of a sale: the referenced item's name (`None` when the reference is
      null, as for an item deleted since the sale), quantity and unit price (minor units). */
  datatype LineItem = LineItem(itemName: Option<string>, quantity: int, price: int)

  /** One sale (sales report) or ledger entry: its raw date, its customer's name
      (`None` for a walk-in sale), its lines and its precomputed total. */
  datatype Group = Group(date: string, customer: Option<string>, items: seq<LineItem>, total: int)

  /** A table cell before rendering. `Blank` is the empty string `""`; `Amount` is
      `toFixed(2)` of a sum, `InrAmount` the same with the "INR " prefix; `LocaleDate`
      is the `toLocaleDateString("in")` of a raw date. */
  datatype Cell =
    | Blank
    | Number(n: int)
    | Str(s: string)
    | LocaleDate(raw: string)
    | Amount(minor: int)
    | InrAmount(minor: int)

  type Row = seq<Cell>

  /** The label the sales list shows for a sale without a customer. */
  const WalkInCustomer: string := "Walk-in Customer"

  /** The label the sales list shows for a line whose item reference is null. */
  const UnknownItem: string := "Unknown Item"

  /** The `reportType` value of each kind, as it appears in file names. */
  function KindName(kind: ReportKind): (s: string)
    ensures |s| > 0
    ensures kind == Sales ==> s == "sales"
    ensures kind == CustomerLedger ==> s == "customerLedger"
  {
    match kind
    case Sales => "sales"
    case CustomerLedger => "customerLedger"
  }

  /** The column headers: the ledger omits the Customer column. */
  function Headers(kind: ReportKind): (h: seq<string>)
    ensures kind == Sales ==> |h| == 8 && h[2] == "Customer"
    ensures kind == CustomerLedger ==> |h| == 7 && "Customer" !in h
  {
    match kind
    case Sales => ["Sr. No.", "Date", "Customer", "Item Name", "Quantity", "Price", "Subtotal", "Total"]
    case CustomerLedger => ["Sr. No.", "Date", "Item Name", "Quantity", "Price", "Subtotal", "Total"]
  }

  /** A monetary cell: PDF cells carry the currency prefix, Excel cells do not. */
  function MoneyCell(enc: Encoding, minor: int): Cell {
    if enc == Pdf then InrAmount(minor) else Amount(minor)
  }

  /** The customer column's text: the customer's name, or the walk-in label. */
  function CustomerLabel(g: Group): string {
    g.customer.GetOr(WalkInCustomer)
  }

  /** The item column's text: the item's name, or the unknown-item label. */
  function ItemLabel(l: LineItem): string {
    l.itemName.GetOr(UnknownItem)
  }

  /** The row for line `j` of group `g`, the `gi`-th group of the report (0-based). */
  function BuildRow(kind: ReportKind, enc: Encoding, g: Group, gi: nat, j: nat): (r: Row)
    requires j < |g.items|
    ensures |r| == |Headers(kind)|
  {
    var item := g.items[j];
    var first := j == 0;
    var lead := [if first then Number(gi + 1) else Blank, if first then LocaleDate(g.date) else Blank];
    var customer := if kind == Sales then [if first then Str(CustomerLabel(g)) else Blank] else [];
    lead + customer +
      [ Str(ItemLabel(item)), Number(item.quantity), MoneyCell(enc, item.price),
        MoneyCell(enc, item.quantity * item.price),
        if first then MoneyCell(enc, g.total) else Blank ]
  }

  /** Every cell is what its column's header names: the group's shared fields on
      its first row only, the line's own fields on every row. */
  lemma BuildRowColumns(kind: ReportKind, enc: Encoding, g: Group, gi: nat, j: nat)
    requires j < |g.items|
    ensures var r, h := BuildRow(kind, enc, g, gi, j), Headers(kind);
      forall c :: 0 <= c < |r| ==>
        && (h[c] == "Sr. No." ==> r[c] == (if j == 0 then Number(gi + 1) else Blank))
        && (h[c] == "Date" ==> r[c] == (if j == 0 then LocaleDate(g.date) else Blank))
        && (h[c] == "Customer" ==> r[c] == (if j == 0 then Str(CustomerLabel(g)) else Blank))
        && (h[c] == "Item Name" ==> r[c] == Str(ItemLabel(g.items[j])))
        && (h[c] == "Quantity" ==> r[c] == Number(g.items[j].quantity))
        && (h[c] == "Price" ==> r[c] == MoneyCell(enc, g.items[j].price))
        && (h[c] == "Subtotal" ==> r[c] == MoneyCell(enc, g.items[j].quantity * g.items[j].price))
        && (h[c] == "Total" ==> r[c] == (if j == 0 then MoneyCell(enc, g.total) else Blank))
  {
  }

  /** The ledger header is the sales header without its Customer column. */
  lemma LedgerHeadersDropCustomer()
    ensures Headers(CustomerLedger) == Headers(Sales)[..2] + Headers(Sales)[3..]
  {
  }

  /** A ledger row is the sales row for the same line with the Customer cell removed. */
  lemma LedgerRowDropsCustomer(enc: Encoding, g: Group, gi: nat, j: nat)
    requires j < |g.items|
    ensures BuildRow(CustomerLedger, enc, g, gi, j) ==
            BuildRow(Sales, enc, g, gi, j)[..2] + BuildRow(Sales, enc, g, gi, j)[3..]
  {
  }

  /** `group.items.map((item, itemIndex) => row)`. */
  function GroupRows(kind: ReportKind, enc: Encoding, g: Group, gi: nat): (rows: seq<Row>)
    ensures |rows| == |g.items|
    ensures forall j :: 0 <= j < |rows| ==> rows[j] == BuildRow(kind, enc, g, gi, j)
  {
    seq(|g.items|, j requires 0 <= j < |g.items| => BuildRow(kind, enc, g, gi, j))
  }

  /** The number of rows the groups produce: the sum of their item counts. */
  function RowCount(data: seq<Group>): nat
    decreases |data|
  {
    if data == [] then 0 else |data[0].items| + RowCount(data[1..])
  }

  /** The index of group `gi`'s first row: the rows of the groups before it. */
  function RowOffset(data: seq<Group>, gi: nat): nat
    requires gi <= |data|
  {
    RowCount(data[..gi])
  }

  /** `data.flatMap((group, index) => ...)` with indices counted from `start`. */
  function RowsFrom(kind: ReportKind, enc: Encoding, data: seq<Group>, start: nat): (rows: seq<Row>)
    ensures |rows| == RowCount(data)
    decreases |data|
  {
    if data == [] then []
    else GroupRows(kind, enc, data[0], start) + RowsFrom(kind, enc, data[1..], start + 1)
  }

  /** Every row of the flattened report has as many cells as the header. */
  lemma {:induction false} RowsFromWidth(kind: ReportKind, enc: Encoding, data: seq<Group>, start: nat)
    ensures forall i :: 0 <= i < |RowsFrom(kind, enc, data, start)| ==>
      |RowsFrom(kind, enc, data, start)[i]| == |Headers(kind)|
    decreases |data|
  {
    if data != [] {
      RowsFromWidth(kind, enc, data[1..], start + 1);
    }
  }

  /** The data rows of an export: one row per line item, groups and items in input order. */
  function ReportRows(kind: ReportKind, enc: Encoding, data: seq<Group>): (rows: seq<Row>)
    ensures |rows| == RowCount(data)
    ensures forall i :: 0 <= i < |rows| ==> |rows[i]| == |Headers(kind)|
  {
    RowsFromWidth(kind, enc, data, 0);
    RowsFrom(kind, enc, data, 0)
  }

  /** The per-group row builder as a function value. */
  function GroupRowsOf(kind: ReportKind, enc: Encoding): (Group, nat) -> seq<Row> {
    (g: Group, i: nat) => GroupRows(kind, enc, g, i)
  }

  /** Applying the function value is calling the builder. */
  lemma GroupRowsOfApplies(kind: ReportKind, enc: Encoding, g: Group, i: nat)
    ensures GroupRowsOf(kind, enc)(g, i) == GroupRows(kind, enc, g, i)
  {
  }

  /** The flattened report is the generic indexed `flatMap` of the group builder. */
  lemma {:induction false} RowsFromIsFlatMap(kind: ReportKind, enc: Encoding, data: seq<Group>, start: nat)
    ensures RowsFrom(kind, enc, data, start) == Lists.FlatMapFrom(data, start, GroupRowsOf(kind, enc))
    decreases |data|
  {
    if data != [] {
      RowsFromIsFlatMap(kind, enc, data[1..], start + 1);
      GroupRowsOfApplies(kind, enc, data[0], start);
    }
  }

  /** Group gi's rows sit, in order, from row RowOffset(gi) on. */
  lemma RowsFromGroupAt(kind: ReportKind, enc: Encoding, data: seq<Group>, start: nat, gi: nat, j: nat)
    requires gi < |data| && j < |data[gi].items|
    ensures RowOffset(data, gi) + j < RowCount(data)
    ensures RowsFrom(kind, enc, data, start)[RowOffset(data, gi) + j] == GroupRows(kind, enc, data[gi], start + gi)[j]
  {
    var f := GroupRowsOf(kind, enc);
    var flat := Lists.FlatMapFrom(data, start, f);
    var pre := Lists.FlatMapFrom(data[..gi], start, f);
    RowsFromIsFlatMap(kind, enc, data, start);
    RowsFromIsFlatMap(kind, enc, data[..gi], start);
    assert RowOffset(data, gi) == |pre|;
    assert RowCount(data) == |flat|;
    Lists.FlatMapFromAt(data, start, f, gi, j);
    GroupRowsOfApplies(kind, enc, data[gi], start + gi);
  }

  /** Line j of group gi lands at row RowOffset(gi) + j, numbered gi + start + 1. */
  lemma RowsFromAt(kind: ReportKind, enc: Encoding, data: seq<Group>, start: nat, gi: nat, j: nat)
    requires gi < |data| && j < |data[gi].items|
    ensures RowOffset(data, gi) + j < RowCount(data)
    ensures RowsFrom(kind, enc, data, start)[RowOffset(data, gi) + j] == BuildRow(kind, enc, data[gi], start + gi, j)
  {
    RowsFromGroupAt(kind, enc, data, start, gi, j);
  }

  /** The layout of every group in a report: its line j sits at row RowOffset(gi) + j;
      the sequence number is gi + 1 (it counts groups, not rows) and, with the date,
      customer and group total, appears only on the group's first row. */
  lemma ReportLayout(kind: ReportKind, enc: Encoding, data: seq<Group>, gi: nat, j: nat)
    requires gi < |data| && j < |data[gi].items|
    ensures var rows := ReportRows(kind, enc, data);
      var i := RowOffset(data, gi) + j;
      i < |rows| &&
      rows[i] == BuildRow(kind, enc, data[gi], gi, j) &&
      rows[i][0] == (if j == 0 then Number(gi + 1) else Blank) &&
      rows[i][1] == (if j == 0 then LocaleDate(data[gi].date) else Blank) &&
      rows[i][|rows[i]| - 1] == (if j == 0 then MoneyCell(enc, data[gi].total) else Blank)
  {
    RowsFromAt(kind, enc, data, 0, gi, j);
    var r := BuildRow(kind, enc, data[gi], gi, j);
    assert r[0] == (if j == 0 then Number(gi + 1) else Blank);
    assert r[1] == (if j == 0 then LocaleDate(data[gi].date) else Blank);
    assert r[|r| - 1] == (if j == 0 then MoneyCell(enc, data[gi].total) else Blank);
  }

  /** The PDF form of a cell: monetary cells gain the currency prefix. */
  function WithCurrency(c: Cell): (d: Cell)
    ensures d == Blank <==> c == Blank
  {
    match c
    case Amount(m) => InrAmount(m)
    case _ => c
  }

  /** PDF and Excel rows agree cell for cell, except that PDF money cells carry "INR ". */
  lemma {:induction false} PdfRowsAreExcelRowsWithCurrency(kind: ReportKind, data: seq<Group>, start: nat)
    ensures var pdf := RowsFrom(kind, Pdf, data, start);
      var xls := RowsFrom(kind, Excel, data, start);
      |pdf| == |xls| &&
      (forall i :: 0 <= i < |pdf| ==> |pdf[i]| == |xls[i]|) &&
      forall i, c :: 0 <= i < |pdf| && 0 <= c < |pdf[i]| ==> pdf[i][c] == WithCurrency(xls[i][c])
    decreases |data|
  {
    RowsFromWidth(kind, Pdf, data, start);
    RowsFromWidth(kind, Excel, data, start);
    if data != [] {
      PdfRowsAreExcelRowsWithCurrency(kind, data[1..], start + 1);
      var pdf := RowsFrom(kind, Pdf, data, start);
      var xls := RowsFrom(kind, Excel, data, start);
      var n := |data[0].items|;
      forall i, c | 0 <= i < |pdf| && 0 <= c < |pdf[i]| ensures pdf[i][c] == WithCurrency(xls[i][c]) {
        if i < n {
          assert pdf[i] == BuildRow(kind, Pdf, data[0], start, i);
          assert xls[i] == BuildRow(kind, Excel, data[0], start, i);
        } else {
          assert pdf[i] == RowsFrom(kind, Pdf, data[1..], start + 1)[i - n];
          assert xls[i] == RowsFrom(kind, Excel, data[1..], start + 1)[i - n];
        }
      }
    }
  }

  /** How the external formatters render numbers, sums (`toFixed(2)`) and dates
      (`toLocaleDateString("in")`); they are parameters of the model. */
  datatype Formats = Formats(number: int -> string, fixed2: int -> string, date: string -> string)

  /** The text a cell shows. */
  function Render(c: Cell, f: Formats): (s: string)
    ensures c == Blank ==> s == ""
    ensures c.InrAmount? ==> s == "INR " + f.fixed2(c.minor)
  {
    match c
    case Blank => ""
    case Number(n) => f.number(n)
    case Str(t) => t
    case LocaleDate(raw) => f.date(raw)
    case Amount(m) => f.fixed2(m)
    case InrAmount(m) => "INR " + f.fixed2(m)
  }

  /** Rendered, a PDF cell is its Excel twin, prefixed with "INR " exactly for money. */
  lemma RenderWithCurrency(c: Cell, f: Formats)
    ensures c.Amount? ==> Render(WithCurrency(c), f) == "INR " + Render(c, f)
    ensures !c.Amount? ==> Render(WithCurrency(c), f) == Render(c, f)
  {
  }

  /** The Excel sheet: the header row followed by every data row. */
  function ExcelSheet(kind: ReportKind, data: seq<Group>): (sheet: seq<Row>)
    ensures |sheet| == 1 + RowCount(data)
    ensures |sheet[0]| == |Headers(kind)| && forall c :: 0 <= c < |sheet[0]| ==> sheet[0][c] == Str(Headers(kind)[c])
    ensures sheet[1..] == ReportRows(kind, Excel, data)
    ensures forall i :: 0 <= i < |sheet| ==> |sheet[i]| == |Headers(kind)|
  {
    var header := seq(|Headers(kind)|, c requires 0 <= c < |Headers(kind)| => Str(Headers(kind)[c]));
    [header] + ReportRows(kind, Excel, data)
  }

  /** The PDF document: a title, the column header, and the data rows. */
  datatype PdfDocument = PdfDocument(title: string, head: seq<string>, body: seq<Row>)

  /** The PDF's title line: the ledger's names the selected customer. */
  function PdfTitle(kind: ReportKind, selectedCustomer: string): (t: string)
    ensures kind == Sales ==> t == "Sales Report"
    ensures kind == CustomerLedger ==>
      |t| == 18 + |selectedCustomer| && t[..18] == "Customer Ledger - " && t[18..] == selectedCustomer
  {
    match kind
    case CustomerLedger => "Customer Ledger - " + selectedCustomer
    case Sales => "Sales Report"
  }

  /** `exportToPDF`: the title, the kind's header and the PDF data rows. */
  function PdfExport(kind: ReportKind, selectedCustomer: string, data: seq<Group>): (doc: PdfDocument)
    ensures doc.title == PdfTitle(kind, selectedCustomer)
    ensures doc.head == Headers(kind)
    ensures doc.body == ReportRows(kind, Pdf, data)
    ensures |doc.body| == RowCount(data)
    ensures forall i :: 0 <= i < |doc.body| ==> |doc.body[i]| == |doc.head|
  {
    PdfDocument(PdfTitle(kind, selectedCustomer), Headers(kind), ReportRows(kind, Pdf, data))
  }

  /** The PDF table and the Excel sheet carry the same data: the PDF head is the
      sheet's header row rendered as text, and each PDF body row is the matching
      sheet row with the currency prefix on its money cells. */
  lemma PdfBodyIsExcelSheetWithCurrency(kind: ReportKind, selectedCustomer: string, data: seq<Group>)
    ensures var doc, sheet := PdfExport(kind, selectedCustomer, data), ExcelSheet(kind, data);
      |doc.body| + 1 == |sheet| &&
      (forall c :: 0 <= c < |doc.head| ==> sheet[0][c] == Str(doc.head[c])) &&
      (forall i :: 0 <= i < |doc.body| ==> |doc.body[i]| == |sheet[i + 1]|) &&
      forall i, c :: 0 <= i < |doc.body| && 0 <= c < |doc.body[i]| ==>
        doc.body[i][c] == WithCurrency(sheet[i + 1][c])
  {
    var doc, sheet := PdfExport(kind, selectedCustomer, data), ExcelSheet(kind, data);
    PdfRowsAreExcelRowsWithCurrency(kind, data, 0);
    forall i | 0 <= i < |doc.body| ensures sheet[i + 1] == RowsFrom(kind, Excel, data, 0)[i] {
      assert sheet[i + 1] == sheet[1..][i];
    }
  }

  /** The downloaded file's name: `<reportType>-report.pdf` or `.xlsx`. */
  function FileName(kind: ReportKind, enc: Encoding): (name: string)
    ensures |name| == |KindName(kind)| + (if enc == Pdf then 11 else 12)
    ensures name[..|KindName(kind)|] == KindName(kind)
    ensures name[|KindName(kind)|..|KindName(kind)| + 7] == "-report"
    ensures enc == Pdf ==> name[|name| - 4..] == ".pdf"
    ensures enc == Excel ==> name[|name| - 5..] == ".xlsx"
  {
    var base, ext := KindName(kind), if enc == Pdf then ".pdf" else ".xlsx";
    var name := base + "-report" + ext;
    assert name[..|base|] == base;
    assert name[|base|..|base| + 7] == "-report";
    assert name[|name| - |ext|..] == ext;
    name
  }

  /** The four exports are saved under four different names. */
  lemma FileNamesDistinct(k1: ReportKind, e1: Encoding, k2: ReportKind, e2: Encoding)
    requires k1 != k2 || e1 != e2
    ensures FileName(k1, e1) != FileName(k2, e2)
  {
    var n1, n2 := FileName(k1, e1), FileName(k2, e2);
    if k1 != k2 {
      assert n1[0] != n2[0];
    } else {
      assert n1[|n1| - 1] != n2[|n2| - 1];
    }
  }

  /** The Generate button is disabled exactly when the filters it needs are missing. */
  predicate GenerateDisabled(kind: ReportKind, startDate: string, endDate: string, selectedCustomer: string)
    ensures !GenerateDisabled(kind, startDate, endDate, selectedCustomer) <==>
      (kind == Sales && startDate != "" && endDate != "") ||
      (kind == CustomerLedger && selectedCustomer != "")
  {
    (kind == Sales && (startDate == "" || endDate == "")) ||
    (kind == CustomerLedger && selectedCustomer == "")
  }

  /** A group the export as written reads without throwing: every line's item
      reference is non-null and, in a sales report, a non-empty sale has a customer
      (its first row reads `sale.customer.name`). */
  predicate GroupReadable(kind: ReportKind, g: Group) {
    (kind == Sales && |g.items| > 0 ==> g.customer.Some?) &&
    forall j :: 0 <= j < |g.items| ==> g.items[j].itemName.Some?
  }

  /** Every group of the report is read without throwing. */
  predicate ExportReadsSucceed(kind: ReportKind, data: seq<Group>) {
    forall gi :: 0 <= gi < |data| ==> GroupReadable(kind, data[gi])
  }

  /** `data.flatMap(...)` exactly as written: every row reads `item.item.name`, which
      throws when a line's item reference is null, and the sales builder also reads
      `sale.customer.name` on each sale's first row, which throws for a walk-in sale.
      Either exception aborts the export function (`None`); the page's own tables
      make the same reads while rendering. */
  function RowsFromAsWritten(kind: ReportKind, enc: Encoding, data: seq<Group>, start: nat): (r: Option<seq<Row>>)
    ensures r.Some? ==> |r.value| == RowCount(data)
    decreases |data|
  {
    if data == [] then Some([])
    else if !GroupReadable(kind, data[0]) then None
    else
      match RowsFromAsWritten(kind, enc, data[1..], start + 1)
      case None => None
      case Some(rest) => Some(GroupRows(kind, enc, data[0], start) + rest)
  }

  /** The code as written exports exactly when every group is readable, and then
      produces the same rows as the model. */
  lemma {:induction false} AsWrittenFailsOnlyOnNullReads(kind: ReportKind, enc: Encoding, data: seq<Group>, start: nat)
    ensures RowsFromAsWritten(kind, enc, data, start).Some? <==> ExportReadsSucceed(kind, data)
    ensures ExportReadsSucceed(kind, data) ==>
      RowsFromAsWritten(kind, enc, data, start) == Some(RowsFrom(kind, enc, data, start))
    decreases |data|
  {
    if data != [] {
      AsWrittenFailsOnlyOnNullReads(kind, enc, data[1..], start + 1);
      if ExportReadsSucceed(kind, data) {
        assert ExportReadsSucceed(kind, data[1..]) by {
          forall gi | 0 <= gi < |data[1..]| ensures GroupReadable(kind, data[1..][gi]) {
            assert data[1..][gi] == data[gi + 1];
          }
        }
      } else if GroupReadable(kind, data[0]) {
        var gi :| 0 <= gi < |data| && !GroupReadable(kind, data[gi]);
        assert data[gi] == data[1..][gi - 1];
      }
    }
  }

  /** A sales report holding one walk-in sale: as written the export throws; the
      model exports its row, labelled like the sales list labels walk-in sales. */
  lemma WalkInSaleBreaksExport(enc: Encoding)
    ensures var data := [Group("2024-01-15", None, [LineItem(Some("Pen"), 2, 1000)], 2000)];
      RowsFromAsWritten(Sales, enc, data, 0).None? &&
      |ReportRows(Sales, enc, data)| == 1 &&
      ReportRows(Sales, enc, data)[0][2] == Str(WalkInCustomer)
  {
    var data := [Group("2024-01-15", None, [LineItem(Some("Pen"), 2, 1000)], 2000)];
    ReportLayout(Sales, enc, data, 0, 0);
    assert data[..0] == [];
  }

  /** A ledger entry whose one line refers to a deleted item: as written either
      export throws; the model exports its row, labelled like the sales list labels
      such lines. */
  lemma DeletedItemBreaksExport(kind: ReportKind, enc: Encoding)
    ensures var data := [Group("2024-01-15", Some("Asha"), [LineItem(None, 2, 1000)], 2000)];
      RowsFromAsWritten(kind, enc, data, 0).None? &&
      |ReportRows(kind, enc, data)| == 1 &&
      ReportRows(kind, enc, data)[0][|Headers(kind)| - 5] == Str(UnknownItem)
  {
    var data := [Group("2024-01-15", Some("Asha"), [LineItem(None, 2, 1000)], 2000)];
    assert data[0].items[0].itemName.None?;
    ReportLayout(kind, enc, data, 0, 0);
    assert data[..0] == [];
  }
}
