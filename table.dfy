/** Tables (src/index.ts:655-850): the cell-parameter reader
    `manageTableParameter`, the per-cell step of the row builder with its
    rowspan countdown, and the budgeted loop over tables. The regular
    expressions that cut a table into cells are not modelled: each cell
    arrives as the four groups of the cell expression. */
module Table {
  import opened Strings
  import Tools
  import Placeholders

  /** The record `tableParameterAll` that one cell's brackets fill in. */
  datatype Params = Params(div: string, tableClass: string, table: string, tr: string, td: string,
                           col: string, colspan: string, rowspan: string, data: string)

  const Blank := Params("", "", "", "", "", "", "", "", "")

  const Lt := "&lt;"
  const Gt := "&gt;"

  // ---------------------------------------------------------------------
  // The bracket search `&lt;((?:(?!&lt;|&gt;).)+)&gt;` without the g flag

  /** The first position at or after `j` where the group cannot advance:
      the end, an escaped angle bracket, or a line terminator. */
  function InnerEnd(p: string, j: nat): (e: nat)
    requires j <= |p|
    ensures j <= e <= |p|
    decreases |p| - j
  {
    if j == |p| || StartsWith(p[j..], Lt) || StartsWith(p[j..], Gt) || Placeholders.IsLineTerminator(p[j]) then j
    else InnerEnd(p, j + 1)
  }

  /** The bracket at `i`, if one starts there: its inner text. */
  function BracketAt(p: string, i: nat): (r: Option<string>)
    requires i <= |p|
  {
    if !StartsWith(p[i..], Lt) then None
    else
      var e := InnerEnd(p, i + 4);
      if e > i + 4 && StartsWith(p[e..], Gt) then Some(p[i + 4..e]) else None
  }

  /** The leftmost bracket at or after `i`. */
  function FirstBracket(p: string, i: nat): (r: Option<string>)
    requires i <= |p|
    decreases |p| - i
  {
    if i == |p| then None
    else
      match BracketAt(p, i)
      case Some(x) => Some(x)
      case None => FirstBracket(p, i + 1)
  }

  /** What the `for … of parameter.match(…) || []` loop visits: nothing, or
      the whole first bracket followed by its inner text. */
  function Items(parameter: string): (r: seq<string>)
    ensures |r| == 0 || |r| == 2
    ensures |r| == 2 ==> r[0] == Lt + r[1] + Gt
  {
    match FirstBracket(parameter, 0)
    case None => []
    case Some(x) => [Lt + x + Gt, x]
  }

  /** Text without `&` holds no bracket. */
  lemma {:induction false} NoAmpNoBracket(p: string, i: nat)
    requires i <= |p|
    requires forall k :: i <= k < |p| ==> p[k] != '&'
    ensures FirstBracket(p, i) == None
    decreases |p| - i
  {
    if i < |p| {
      assert p[i..][0] == p[i] != '&';
      assert !StartsWith(p[i..], Lt);
      NoAmpNoBracket(p, i + 1);
    }
  }

  /** The inner text of a bracket runs up to the first `&gt;` when it holds
      no `&` and no line break. */
  lemma {:induction false} InnerEndPlain(p: string, j: nat, e: nat)
    requires j <= e <= |p|
    requires forall k :: j <= k < e ==> p[k] != '&' && !Placeholders.IsLineTerminator(p[k])
    requires StartsWith(p[e..], Gt)
    ensures InnerEnd(p, j) == e
    decreases e - j
  {
    if j < e {
      assert p[j..][0] == p[j] != '&';
      InnerEndPlain(p, j + 1, e);
    } else {
      assert StartsWith(p[j..], Gt);
    }
  }

  /** Only the leftmost bracket is read: whatever follows it is ignored. */
  lemma FirstBracketOnly(x: string, rest: string)
    requires |x| > 0
    requires forall k :: 0 <= k < |x| ==> x[k] != '&' && !Placeholders.IsLineTerminator(x[k])
    ensures Items(Lt + x + Gt + rest) == [Lt + x + Gt, x]
  {
    var p := Lt + x + Gt + rest;
    assert p[..4] == Lt;
    assert p[0..][..4] == Lt;
    assert p[4 + |x|..][..4] == Gt;
    forall k | 4 <= k < 4 + |x|
      ensures p[k] != '&' && !Placeholders.IsLineTerminator(p[k])
    {
      assert p[k] == x[k - 4];
    }
    InnerEndPlain(p, 4, 4 + |x|);
    assert p[4..4 + |x|] == x;
    assert BracketAt(p, 0) == Some(x);
  }

  // ---------------------------------------------------------------------
  // One item of the loop

  /** `replace(/[^0-9]+/g, "")`: the digits of `s`, in order. */
  function KeepDigits(s: string): (r: string)
    ensures forall i :: 0 <= i < |r| ==> IsDigit(r[i])
    ensures (forall i :: 0 <= i < |s| ==> IsDigit(s[i])) ==> r == s
  {
    if s == [] then []
    else
      assert (forall i :: 0 <= i < |s| ==> IsDigit(s[i])) ==> forall i :: 0 <= i < |s| - 1 ==> IsDigit(s[1..][i]);
      if IsDigit(s[0]) then [s[0]] + KeepDigits(s[1..]) else KeepDigits(s[1..])
  }

  /** `^-[0-9]+$`. */
  predicate IsColspanItem(s: string) {
    |s| >= 2 && s[0] == '-' && IsDigits(s[1..])
  }

  /** `^(\^|v)?\|[0-9]+$`. */
  predicate IsRowspanItem(s: string) {
    (|s| >= 2 && s[0] == '|' && IsDigits(s[1..]))
    || (|s| >= 3 && (s[0] == '^' || s[0] == 'v') && s[1] == '|' && IsDigits(s[2..]))
  }

  predicate IsAlignItem(s: string) {
    s == "(" || s == ":" || s == ")"
  }

  /** The digits an explicit span item carries. */
  lemma SpanDigits(s: string)
    ensures IsColspanItem(s) ==> KeepDigits(s) == s[1..]
    ensures IsRowspanItem(s) ==> IsDigits(KeepDigits(s))
  {
    if IsColspanItem(s) {
      assert KeepDigits(s) == KeepDigits(s[1..]);
    }
    if IsRowspanItem(s) {
      if s[0] == '|' {
        assert KeepDigits(s) == KeepDigits(s[1..]);
      } else {
        assert KeepDigits(s) == KeepDigits(s[1..]);
        assert s[1..][0] == '|' && s[1..][1..] == s[2..];
        assert KeepDigits(s[1..]) == KeepDigits(s[2..]);
      }
    }
  }

  /** The names a `name=value` item understands. */
  predicate IsKnownName(name: string) {
    name in {"tablebgcolor", "tablewidth", "tableheight", "tablealign", "tableclass", "tabletextalign",
             "tablecolor", "tablebordercolor", "rowbgcolor", "rowtextalign", "rowcolor", "colcolor",
             "colbgcolor", "bgcolor", "color", "width", "height"}
  }

  /** What a `name=value` item adds to each part of the table, by name;
      `value` is already CSS-safe and `dm` is its theme colour. Every part
      other than the one the name addresses gets nothing. */
  function DivStyle(name: string, value: string): string {
    if name == "tablealign" then
      (if value == "right" then "float:right;" else if value == "center" then "margin:auto;" else "")
    else ""
  }

  function TableStyle(name: string, value: string, dm: string): string {
    if name == "tablebgcolor" then "background:" + dm + ";"
    else if name == "tablewidth" then "width:" + Tools.PxAddCheck(value) + ";"
    else if name == "tableheight" then "height:" + Tools.PxAddCheck(value) + ";"
    else if name == "tablealign" then "margin:auto;"
    else if name == "tabletextalign" then "text-align:" + value + ";"
    else if name == "tablecolor" then "color:" + dm + ";"
    else if name == "tablebordercolor" then "border:2px solid " + dm + ";"
    else ""
  }

  function RowStyle(name: string, value: string, dm: string): string {
    if name == "rowbgcolor" then "background:" + dm + ";"
    else if name == "rowtextalign" then "text-align:" + value + ";"
    else if name == "rowcolor" then "color:" + dm + ";"
    else ""
  }

  function ColStyle(name: string, dm: string): string {
    if name == "colcolor" then "color:" + dm + ";"
    else if name == "colbgcolor" then "background:" + dm + ";"
    else ""
  }

  function CellStyle(name: string, value: string, dm: string): string {
    if name == "bgcolor" then "background:" + dm + ";"
    else if name == "color" then "color:" + dm + ";"
    else if name == "width" then "width:" + Tools.PxAddCheck(value) + ";"
    else if name == "height" then "height:" + Tools.PxAddCheck(value) + ";"
    else ""
  }

  /** A `name=value` item (src/index.ts:668-697): styles are appended to the
      part of the table the name addresses, the value made CSS-safe, except
      that `tableclass` replaces the class with the raw value. An unknown
      name changes nothing, and no name touches the spans or the body. */
  function Named(all: Params, name: string, raw: string, darkmode: string): (r: Params)
    ensures r.colspan == all.colspan && r.rowspan == all.rowspan && r.data == all.data
    ensures StartsWith(r.div, all.div) && StartsWith(r.table, all.table) && StartsWith(r.tr, all.tr)
    ensures StartsWith(r.td, all.td) && StartsWith(r.col, all.col)
    ensures r.tableClass == (if name == "tableclass" then raw else all.tableClass)
    ensures !IsKnownName(name) ==> r == all
  {
    var d := Tools.CssSafe(raw);
    var dm := Tools.DarkModeSplit(d, darkmode);
    var r := all.(div := all.div + DivStyle(name, d), table := all.table + TableStyle(name, d, dm),
                  tr := all.tr + RowStyle(name, d, dm), td := all.td + CellStyle(name, d, dm),
                  col := all.col + ColStyle(name, dm),
                  tableClass := if name == "tableclass" then raw else all.tableClass);
    assert !IsKnownName(name) ==> all.div + "" == all.div && all.table + "" == all.table && all.tr + "" == all.tr
                                  && all.td + "" == all.td && all.col + "" == all.col;
    r
  }

  /** The loop's state: the record and the two `Auto` flags. */
  datatype Acc = Acc(all: Params, alignAuto: bool, colspanAuto: bool)

  /** What one visited item does, by how many pieces `split("=")` gives. */
  function ApplyItem(a: Acc, item: string, darkmode: string): Acc {
    var parts := Split(item, '=');
    if |parts| == 2 then
      a.(all := Named(a.all, ToLowerAscii(ReplaceAll(parts[0], " ", "")), parts[1], darkmode))
    else if |parts| == 1 then
      if IsColspanItem(item) then
        a.(colspanAuto := false, all := a.all.(colspan := KeepDigits(item)))
      else if IsRowspanItem(item) then
        var valign := if item[0] == '^' then "vertical-align: top;" else if item[0] == 'v' then "vertical-align: bottom;" else "";
        a.(all := a.all.(td := a.all.td + valign, rowspan := KeepDigits(item)))
      else if IsAlignItem(item) then
        var align := if item == "(" then "text-align: left;" else if item == ":" then "text-align: center;" else "text-align: right;";
        a.(alignAuto := false, all := a.all.(td := a.all.td + align))
      else
        a.(all := a.all.(td := a.all.td + "background:" + Tools.DarkModeSplit(Tools.CssSafe(item), darkmode) + ";"))
    else a
  }

  /** The spans a record can hold: no colspan while the automatic one is
      pending, digits once an item set it, and a rowspan of digits or none. */
  predicate SpansValid(a: Acc) {
    (a.colspanAuto ==> a.all.colspan == "")
    && (!a.colspanAuto ==> IsDigits(a.all.colspan))
    && (a.all.rowspan == "" || IsDigits(a.all.rowspan))
  }

  /** What one item does to the flags and the spans: only a `-N` item
      sets the colspan and turns the automatic one off, only `(`, `:` or
      `)` turns the automatic alignment off, and nothing touches the body. */
  lemma ItemFlags(a: Acc, item: string, darkmode: string)
    ensures var b := ApplyItem(a, item, darkmode);
            && b.colspanAuto == (a.colspanAuto && !IsColspanItem(item))
            && b.alignAuto == (a.alignAuto && !IsAlignItem(item))
            && (IsColspanItem(item) ==> b.all.colspan == item[1..])
            && (!IsColspanItem(item) ==> b.all.colspan == a.all.colspan)
            && b.all.data == a.all.data
            && (SpansValid(a) ==> SpansValid(b))
  {
    if IsColspanItem(item) {
      forall j | 0 <= j < |item| ensures item[j] != '=' {
        if j > 0 {
          assert item[j] == item[1..][j - 1];
        }
      }
    }
    if IsColspanItem(item) || IsAlignItem(item) {
      Tools.SplitNoSep(item, '=');
    }
    SpanDigits(item);
  }

  /** The items visited in order, from the start of the loop. */
  function ApplyItems(a: Acc, items: seq<string>, darkmode: string): (r: Acc)
    ensures SpansValid(a) ==> SpansValid(r)
    ensures r.all.data == a.all.data
    ensures r.alignAuto == (a.alignAuto && forall k :: 0 <= k < |items| ==> !IsAlignItem(items[k]))
    ensures r.colspanAuto == (a.colspanAuto && forall k :: 0 <= k < |items| ==> !IsColspanItem(items[k]))
    decreases |items|
  {
    if items == [] then a
    else
      var front := items[..|items| - 1];
      var item := items[|items| - 1];
      var b := ApplyItems(a, front, darkmode);
      ItemFlags(b, item, darkmode);
      NoneOfSnoc(items);
      ApplyItem(b, item, darkmode)
  }

  /** No item of a list is an alignment (colspan) item exactly when none
      of its front is and its last one is not. */
  lemma NoneOfSnoc(items: seq<string>)
    requires items != []
    ensures var front, last := items[..|items| - 1], items[|items| - 1];
      && (forall k :: 0 <= k < |items| ==> !IsAlignItem(items[k]))
         == ((forall k :: 0 <= k < |front| ==> !IsAlignItem(front[k])) && !IsAlignItem(last))
      && (forall k :: 0 <= k < |items| ==> !IsColspanItem(items[k]))
         == ((forall k :: 0 <= k < |front| ==> !IsColspanItem(front[k])) && !IsColspanItem(last))
  {
    var front := items[..|items| - 1];
    assert forall k :: 0 <= k < |front| ==> items[k] == front[k];
  }

  const Start := Acc(Blank, true, true)

  /** The item loop of `manageTableParameter` as a value. */
  function ReadItems(parameter: string, darkmode: string): (r: Acc)
    ensures SpansValid(r)
  {
    assert SpansValid(Start);
    ApplyItems(Start, Items(parameter), darkmode)
  }

  /** The automatic alignment (src/index.ts:718-732): one leading space
      means right, centred when a trailing space follows; one space is
      dropped at either end. */
  function AutoAlign(td: string, data: string): (r: (string, string)) {
    if StartsWith(data, " ") then
      var d := data[1..];
      if EndsWith(d, " ") then (td + "text-align: center;", d[..|d| - 1])
      else (td + "text-align: right;", d)
    else if EndsWith(data, " ") then (td, data[..|data| - 1])
    else (td, data)
  }

  /** `manageTableParameter(cellCount, parameter, data)` (src/index.ts:658-741). */
  function TableParameter(cellCount: string, parameter: string, data: string, darkmode: string): (r: Params)
    ensures IsDigits(r.colspan)
    ensures r.rowspan == "" || IsDigits(r.rowspan)
  {
    var a := ReadItems(parameter, darkmode);
    var (td, d) := if a.alignAuto then AutoAlign(a.all.td, data) else (a.all.td, data);
    var colspan := if a.colspanAuto then NatToString(|cellCount| / 2) else a.all.colspan;
    a.all.(td := td, colspan := colspan, data := d)
  }

  /** The loop over the matched items, accumulating the record in place. */
  method ManageTableParameter(cellCount: string, parameter: string, data: string, darkmode: string) returns (all: Params)
    ensures all == TableParameter(cellCount, parameter, data, darkmode)
  {
    var acc := ApplyEach(Items(parameter), darkmode);
    var d := data;
    var td := acc.all.td;
    if acc.alignAuto {
      td, d := AlignInPlace(td, d);
    }
    var colspan := if acc.colspanAuto then NatToString(|cellCount| / 2) else acc.all.colspan;
    all := acc.all.(td := td, colspan := colspan, data := d);
  }

  /** The `for` loop over the matched items. */
  method ApplyEach(items: seq<string>, darkmode: string) returns (acc: Acc)
    ensures acc == ApplyItems(Start, items, darkmode)
  {
    acc := Start;
    var i := 0;
    while i < |items|
      invariant 0 <= i <= |items|
      invariant acc == ApplyItems(Start, items[..i], darkmode)
    {
      assert items[..i + 1][..i] == items[..i];
      acc := ApplyItem(acc, items[i], darkmode);
      i := i + 1;
    }
    assert items[..i] == items;
  }

  /** The automatic alignment, on the two variables it updates. */
  method AlignInPlace(td0: string, data: string) returns (td: string, d: string)
    ensures (td, d) == AutoAlign(td0, data)
  {
    td, d := td0, data;
    if StartsWith(d, " ") {
      d := d[1..];
      if EndsWith(d, " ") {
        td := td + "text-align: center;";
        d := d[..|d| - 1];
      } else {
        td := td + "text-align: right;";
      }
    } else if EndsWith(d, " ") {
      d := d[..|d| - 1];
    }
  }

  // ---------------------------------------------------------------------
  // Alignment and colspan

  /** No `(`, `:` or `)` item: the body's spaces decide the alignment. */
  lemma AutomaticAlignment(cellCount: string, parameter: string, data: string, darkmode: string)
    requires forall k :: 0 <= k < |Items(parameter)| ==> !IsAlignItem(Items(parameter)[k])
    ensures var r := TableParameter(cellCount, parameter, data, darkmode);
            var td := ReadItems(parameter, darkmode).all.td;
            && (StartsWith(data, " ") && EndsWith(data[1..], " ") ==>
                  r.td == td + "text-align: center;" && r.data == data[1..|data| - 1])
            && (StartsWith(data, " ") && !EndsWith(data[1..], " ") ==>
                  r.td == td + "text-align: right;" && r.data == data[1..])
            && (!StartsWith(data, " ") && EndsWith(data, " ") ==> r.td == td && r.data == data[..|data| - 1])
            && (!StartsWith(data, " ") && !EndsWith(data, " ") ==> r.td == td && r.data == data)
  {
    assert ReadItems(parameter, darkmode).alignAuto;
  }

  /** An explicit alignment item leaves the body exactly as it is. */
  lemma ExplicitAlignment(cellCount: string, parameter: string, data: string, darkmode: string)
    requires exists k :: 0 <= k < |Items(parameter)| && IsAlignItem(Items(parameter)[k])
    ensures var r := TableParameter(cellCount, parameter, data, darkmode);
            r.data == data && r.td == ReadItems(parameter, darkmode).all.td
  {
    assert !ReadItems(parameter, darkmode).alignAuto;
  }

  /** Without a `-N` item the colspan is half the length of `cellCount`;
      with one, it is N's digits. */
  lemma ColspanRule(cellCount: string, parameter: string, data: string, darkmode: string)
    ensures var r := TableParameter(cellCount, parameter, data, darkmode);
            var items := Items(parameter);
            && ((forall k :: 0 <= k < |items| ==> !IsColspanItem(items[k])) ==>
                  r.colspan == NatToString(|cellCount| / 2) && DigitsValue(r.colspan) == |cellCount| / 2)
            && (|items| == 2 && IsColspanItem(items[1]) ==> r.colspan == items[1][1..])
  {
    var items := Items(parameter);
    if |items| == 2 && IsColspanItem(items[1]) {
      var b := ApplyItems(Start, items[..1], darkmode);
      ItemFlags(b, items[1], darkmode);
      SpanDigits(items[1]);
      assert ReadItems(parameter, darkmode) == ApplyItem(b, items[1], darkmode);
    }
  }

  /** The items of the two parameters the examples use. */
  lemma TwoBracketItems()
    ensures Items("&lt;-3&gt;&lt;:&gt;") == ["&lt;-3&gt;", "-3"]
  {
    var x, rest := "-3", "&lt;:&gt;";
    assert Lt + x + Gt == "&lt;-3&gt;";
    assert Lt + x + Gt + rest == "&lt;-3&gt;&lt;:&gt;";
    FirstBracketOnly(x, rest);
  }

  lemma OneBracketItems()
    ensures Items("&lt;-3&gt;") == ["&lt;-3&gt;", "-3"]
  {
    var x, rest := "-3", "";
    assert Lt + x + Gt == "&lt;-3&gt;";
    assert Lt + x + Gt + rest == "&lt;-3&gt;";
    FirstBracketOnly(x, rest);
  }

  lemma MinusThree()
    ensures IsColspanItem("-3") && "-3"[1..] == "3"
    ensures !IsAlignItem("&lt;-3&gt;") && !IsAlignItem("-3")
  {
    assert "-3"[1..] == "3";
  }

  /** Only the first bracket counts: a second one, here `<:>`, is never
      read, so the body is still aligned by its spaces. */
  lemma SecondBracketIgnored()
    ensures var r := TableParameter("||", "&lt;-3&gt;&lt;:&gt;", " x ", "0");
            r.colspan == "3" && r.data == "x" && EndsWith(r.td, "text-align: center;")
  {
    SecondBracketColspan();
    SecondBracketAlignment();
  }

  lemma SecondBracketColspan()
    ensures TableParameter("||", "&lt;-3&gt;&lt;:&gt;", " x ", "0").colspan == "3"
  {
    TwoBracketItems();
    MinusThree();
    ColspanRule("||", "&lt;-3&gt;&lt;:&gt;", " x ", "0");
  }

  lemma SecondBracketAlignment()
    ensures var r := TableParameter("||", "&lt;-3&gt;&lt;:&gt;", " x ", "0");
            r.data == "x" && EndsWith(r.td, "text-align: center;")
  {
    var p := "&lt;-3&gt;&lt;:&gt;";
    assert StartsWith(" x ", " ") && " x "[1..] == "x " && EndsWith("x ", " ") && " x "[1..|" x "| - 1] == "x";
    NoAlignItems(p);
    AutomaticAlignment("||", p, " x ", "0");
  }

  /** The whole bracket is visited too: without `=` in it, it is read as a
      background colour, angle-bracket entities and all. */
  lemma WholeBracketIsBackground(a: Acc, x: string, darkmode: string)
    requires '=' !in x
    ensures ApplyItem(a, Lt + x + Gt, darkmode).all.td
            == a.all.td + "background:" + Tools.DarkModeSplit(Tools.CssSafe(Lt + x + Gt), darkmode) + ";"
  {
    var item := Lt + x + Gt;
    forall j | 0 <= j < |item| ensures item[j] != '=' {
      if j < 4 {
        assert item[j] == Lt[j];
      } else if j < 4 + |x| {
        assert item[j] == x[j - 4];
      } else {
        assert item[j] == Gt[j - 4 - |x|];
      }
    }
    Tools.SplitNoSep(item, '=');
    assert item[0] == '&' && |item| > 1;
    assert !IsColspanItem(item) && !IsRowspanItem(item) && !IsAlignItem(item);
    BackgroundItem(a, item, darkmode);
  }

  /** A single item that no other rule claims is a background colour. */
  lemma BackgroundItem(a: Acc, item: string, darkmode: string)
    requires |Split(item, '=')| == 1
    requires !IsColspanItem(item) && !IsRowspanItem(item) && !IsAlignItem(item)
    ensures ApplyItem(a, item, darkmode).all.td
            == a.all.td + "background:" + Tools.DarkModeSplit(Tools.CssSafe(item), darkmode) + ";"
  {
  }

  // ---------------------------------------------------------------------
  // The call site (src/index.ts:790-792)

  /** The groups of one match of the cell expression: an optional line
      break, the run of `||`, the run of brackets and the cell body. */
  datatype Cell = Cell(newline: string, bars: string, brackets: string, body: string)

  /** `replace(/^\n+/g, "")`. */
  function DropLeadingNewlines(s: string): (r: string)
    ensures |r| <= |s|
    ensures r == [] || r[0] != '\n'
  {
    if s != [] && s[0] == '\n' then DropLeadingNewlines(s[1..]) else s
  }

  /** The bar group only ever holds `|`, and the first group only a line break. */
  predicate WellFormed(c: Cell) {
    |c.bars| >= 2 && (forall k :: 0 <= k < |c.bars| ==> c.bars[k] == '|')
    && (c.newline == "" || c.newline == "\n")
  }

  /** The call as written: groups 1, 2 and 3 go to `cellCount`, `parameter`
      and `data`. */
  function CellAsWritten(c: Cell, darkmode: string): Params {
    TableParameter(c.newline, c.bars, DropLeadingNewlines(c.brackets), darkmode)
  }

  /** The call the parameter names call for: groups 2, 3 and 4. */
  function CellIntended(c: Cell, darkmode: string): Params {
    TableParameter(c.bars, c.brackets, DropLeadingNewlines(c.body), darkmode)
  }

  /** As written no bracket is ever read: the parameter is the `||` run,
      the colspan is "0", there is no rowspan or style other than the
      automatic alignment, and the body never reaches the cell. */
  lemma AsWrittenIgnoresBrackets(c: Cell, darkmode: string)
    requires WellFormed(c)
    ensures var r := CellAsWritten(c, darkmode);
            && r.colspan == "0" && r.rowspan == ""
            && r.div == "" && r.tableClass == "" && r.table == "" && r.tr == "" && r.col == ""
            && (r.td, r.data) == AutoAlign("", DropLeadingNewlines(c.brackets))
  {
    NoAmpNoBracket(c.bars, 0);
    assert Items(c.bars) == [];
    assert |c.newline| / 2 == 0;
  }

  /** As written a cell `||<-3>x` spans no column and shows its bracket. */
  lemma CallSiteAsWrittenExample()
    ensures CellAsWritten(Cell("\n", "||", "&lt;-3&gt;", "x"), "0").colspan == "0"
    ensures CellAsWritten(Cell("\n", "||", "&lt;-3&gt;", "x"), "0").data == "&lt;-3&gt;"
  {
    var c := Cell("\n", "||", "&lt;-3&gt;", "x");
    assert DropLeadingNewlines("&lt;-3&gt;") == "&lt;-3&gt;";
    assert !StartsWith("&lt;-3&gt;", " ") && !EndsWith("&lt;-3&gt;", " ");
    AsWrittenIgnoresBrackets(c, "0");
  }

  /** The intended call reads the same cell's own bracket: it spans three
      columns and shows its body. */
  lemma CallSiteIntendedExample()
    ensures CellIntended(Cell("\n", "||", "&lt;-3&gt;", "x"), "0").colspan == "3"
    ensures CellIntended(Cell("\n", "||", "&lt;-3&gt;", "x"), "0").data == "x"
  {
    assert DropLeadingNewlines("x") == "x";
    var c := Cell("\n", "||", "&lt;-3&gt;", "x");
    assert CellIntended(c, "0") == TableParameter("||", "&lt;-3&gt;", "x", "0");
    OneBracketCell();
  }

  lemma OneBracketCell()
    ensures TableParameter("||", "&lt;-3&gt;", "x", "0").colspan == "3"
    ensures TableParameter("||", "&lt;-3&gt;", "x", "0").data == "x"
  {
    OneBracketColspan();
    OneBracketData();
  }

  lemma OneBracketColspan()
    ensures TableParameter("||", "&lt;-3&gt;", "x", "0").colspan == "3"
  {
    OneBracketItems();
    MinusThree();
    ColspanRule("||", "&lt;-3&gt;", "x", "0");
  }

  lemma OneBracketData()
    ensures TableParameter("||", "&lt;-3&gt;", "x", "0").data == "x"
  {
    var x := "x";
    assert x[..1] == x && x[0] != ' ' && x[|x| - 1..] == x;
    assert !StartsWith(x, " ") && !EndsWith(x, " ");
    NoAlignItems("&lt;-3&gt;");
    AutomaticAlignment("||", "&lt;-3&gt;", "x", "0");
  }

  /** Neither bracket of the examples holds an alignment item. */
  lemma NoAlignItems(parameter: string)
    requires parameter == "&lt;-3&gt;" || parameter == "&lt;-3&gt;&lt;:&gt;"
    ensures forall k :: 0 <= k < |Items(parameter)| ==> !IsAlignItem(Items(parameter)[k])
  {
    if parameter == "&lt;-3&gt;" {
      OneBracketItems();
    } else {
      TwoBracketItems();
    }
    MinusThree();
  }

  /** With the intended call a plain run of `2k` bars spans `k` columns. */
  lemma IntendedColspan(c: Cell, darkmode: string)
    requires WellFormed(c)
    requires forall k :: 0 <= k < |c.brackets| ==> c.brackets[k] != '&'
    ensures DigitsValue(CellIntended(c, darkmode).colspan) == |c.bars| / 2
  {
    NoAmpNoBracket(c.brackets, 0);
    ColspanRule(c.bars, c.brackets, DropLeadingNewlines(c.body), darkmode);
  }

  // ---------------------------------------------------------------------
  // The rowspan countdown (src/index.ts:800-811)

  /** `Number(rowspan)`: the value of a digit string; anything else is
      `NaN` or 0, which no `> 1` test accepts. */
  function RowspanNumber(s: string): nat {
    if IsDigits(s) then DigitsValue(s) else 0
  }

  /** Countdowns never go negative. */
  predicate NonNegative(rowspan: map<int, int>) {
    forall k | k in rowspan :: rowspan[k] >= 0
  }

  /** The step for one cell at column `col`: a running countdown there is
      decremented and pushes the cell one column right; then a rowspan of
      `N > 1` starts a countdown of `N - 1` at the cell's column. Returns
      the new countdowns and the cell's column. */
  function RowspanStep(rowspan: map<int, int>, col: int, cellRowspan: string): (map<int, int>, int) {
    var (rs, c) :=
      if col !in rowspan || rowspan[col] == 0 then (rowspan[col := 0], col)
      else (rowspan[col := rowspan[col] - 1], col + 1);
    var n := RowspanNumber(cellRowspan);
    if cellRowspan != "" && n > 1 then (rs[c := n - 1], c) else (rs, c)
  }

  /** The countdowns stay non-negative. */
  lemma RowspanStaysNonNegative(rowspan: map<int, int>, col: int, cellRowspan: string)
    requires NonNegative(rowspan)
    ensures NonNegative(RowspanStep(rowspan, col, cellRowspan).0)
  {
  }

  /** A running countdown is decremented once and the cell moves exactly
      one column; without one the cell stays and the countdown reads 0.
      Columns other than the old and the new one keep their countdowns. */
  lemma RowspanCountdown(rowspan: map<int, int>, col: int, cellRowspan: string)
    requires NonNegative(rowspan)
    ensures var (rs, c) := RowspanStep(rowspan, col, cellRowspan);
            && (col in rowspan && rowspan[col] > 0 ==> c == col + 1 && rs[col] == rowspan[col] - 1)
            && (col !in rowspan || rowspan[col] == 0 ==> c == col && (RowspanNumber(cellRowspan) <= 1 ==> rs[col] == 0))
            && (forall k | k in rowspan && k != col && k != c :: k in rs && rs[k] == rowspan[k])
            && rs.Keys <= rowspan.Keys + {col, c}
  {
  }

  /** A rowspan of `N > 1` leaves `N - 1` rows to skip at the cell's column. */
  lemma RowspanStarts(rowspan: map<int, int>, col: int, n: nat)
    requires n > 1
    ensures var (rs, c) := RowspanStep(rowspan, col, NatToString(n));
            c in rs && rs[c] == n - 1
  {
  }

  // ---------------------------------------------------------------------
  // Building one table (src/index.ts:776-840)

  /** The table-wide record `tableParameter` and the output so far. */
  datatype Builder = Builder(div: string, tableClass: string, table: string, col: map<int, string>,
                             rowspan: map<int, int>, colNum: int, trChange: bool, rows: string)

  const Empty := Builder("", "", "", map[], map[], 0, false, "")

  /** A cell that only closes its row: empty in the two groups the row test reads. */
  function EndsRow(c: Cell, intended: bool): bool {
    if intended then c.brackets == "" && c.body == "" else c.bars == "" && c.brackets == ""
  }

  function CellParams(c: Cell, intended: bool, darkmode: string): Params {
    if intended then CellIntended(c, darkmode) else CellAsWritten(c, darkmode)
  }

  function ColAt(col: map<int, string>, k: int): string {
    if k in col then col[k] else ""
  }

  /** The `<td>` of one cell: its spans and the column style before its own. */
  function CellHtml(p: Params, colStyle: string): string {
    "<td colspan=\"" + p.colspan + "\" rowspan=\"" + p.rowspan + "\" style=\"" + colStyle + p.td
    + "\"><back_br>\n" + p.data + "\n<front_br></td>"
  }

  /** The row bookkeeping before a cell: the first cell opens a row, and a
      cell after a row end closes it, opens the next and restarts at column 0. */
  function OpenRow(b: Builder, p: Params): (int, string) {
    var open := "<tr style=\"" + p.tr + "\">";
    var rows := if b.rows == "" then open else b.rows;
    if b.trChange then (0, rows + "</tr>" + open) else (b.colNum, rows)
  }

  /** One iteration of the loop over the cells of a table. */
  function AddCell(b: Builder, p: Params, ends: bool): Builder {
    var row := OpenRow(b, p);
    var step := RowspanStep(b.rowspan, row.0, p.rowspan);
    var k := step.1;
    var col := b.col[k := ColAt(b.col, k) + p.col];
    Builder(b.div + p.div, if p.tableClass != "" then p.tableClass else b.tableClass, b.table + p.table,
            col, step.0, k + 1, ends, if ends then row.1 else row.1 + CellHtml(p, col[k]))
  }

  function AddCells(b: Builder, cells: seq<Cell>, intended: bool, darkmode: string): Builder
    decreases |cells|
  {
    if cells == [] then b
    else
      var c := cells[|cells| - 1];
      AddCell(AddCells(b, cells[..|cells| - 1], intended, darkmode), CellParams(c, intended, darkmode), EndsRow(c, intended))
  }

  /** Every countdown of every step is non-negative, and so is the column. */
  lemma {:induction false} AddCellsNonNegative(cells: seq<Cell>, intended: bool, darkmode: string)
    ensures var b := AddCells(Empty, cells, intended, darkmode);
            NonNegative(b.rowspan) && b.colNum >= 0
    decreases |cells|
  {
    if cells != [] {
      var b := AddCells(Empty, cells[..|cells| - 1], intended, darkmode);
      AddCellsNonNegative(cells[..|cells| - 1], intended, darkmode);
      var p := CellParams(cells[|cells| - 1], intended, darkmode);
      RowspanStaysNonNegative(b.rowspan, if b.trChange then 0 else b.colNum, p.rowspan);
    }
  }

  /** As written the row test reads the bar group, which is never empty,
      so a table is a single row whose column only grows: one per cell at least. */
  lemma {:induction false} AsWrittenOneRow(cells: seq<Cell>, darkmode: string)
    requires forall k :: 0 <= k < |cells| ==> WellFormed(cells[k])
    ensures var b := AddCells(Empty, cells, false, darkmode);
            !b.trChange && b.colNum >= |cells|
    decreases |cells|
  {
    if cells != [] {
      AsWrittenOneRow(cells[..|cells| - 1], darkmode);
    }
  }

  /** The table a list of cells becomes, with its caption. */
  function TableHtml(caption: Option<string>, cells: seq<Cell>, intended: bool, darkmode: string): string {
    var b := AddCells(Empty, cells, intended, darkmode);
    var cap := if caption.Some? then "<caption>" + caption.value + "</caption>" else "";
    var t := "<table class=\"" + b.tableClass + "\" style=\"" + b.table + "\">" + cap + b.rows + "</tr></table>";
    "\n<front_br><div class=\"table_safe\" style=\"" + b.div + "\">" + t + "</div><back_br>\n"
  }

  /** One pass of the cell loop, on the table-wide record. */
  method CellStep(b: Builder, p: Params, ends: bool) returns (r: Builder)
    ensures r == AddCell(b, p, ends)
  {
    var rows, colNum, rowspan, col := b.rows, b.colNum, b.rowspan, b.col;
    var open := "<tr style=\"" + p.tr + "\">";
    if rows == "" {
      rows := open;
    }
    if b.trChange {
      colNum := 0;
      rows := rows + "</tr>" + open;
    }
    assert colNum == OpenRow(b, p).0 && rows == OpenRow(b, p).1;
    ghost var step := RowspanStep(b.rowspan, colNum, p.rowspan);
    if colNum !in rowspan || rowspan[colNum] == 0 {
      rowspan := rowspan[colNum := 0];
    } else {
      rowspan := rowspan[colNum := rowspan[colNum] - 1];
      colNum := colNum + 1;
    }
    if p.rowspan != "" && RowspanNumber(p.rowspan) > 1 {
      rowspan := rowspan[colNum := RowspanNumber(p.rowspan) - 1];
    }
    assert rowspan == step.0 && colNum == step.1;
    if colNum !in col {
      col := col[colNum := ""];
    }
    col := col[colNum := col[colNum] + p.col];
    assert col == b.col[colNum := ColAt(b.col, colNum) + p.col];
    var trChange := ends;
    if !trChange {
      rows := rows + CellHtml(p, col[colNum]);
    }
    var tableClass := if p.tableClass != "" then p.tableClass else b.tableClass;
    r := Builder(b.div + p.div, tableClass, b.table + p.table, col, rowspan, colNum + 1, trChange, rows);
  }

  /** The cell loop over one table. */
  method BuildTable(caption: Option<string>, cells: seq<Cell>, intended: bool, darkmode: string) returns (html: string)
    ensures html == TableHtml(caption, cells, intended, darkmode)
  {
    var b := Empty;
    for i := 0 to |cells|
      invariant b == AddCells(Empty, cells[..i], intended, darkmode)
    {
      assert cells[..i + 1][..i] == cells[..i];
      b := CellStep(b, CellParams(cells[i], intended, darkmode), EndsRow(cells[i], intended));
    }
    assert cells[..|cells|] == cells;
    var cap := if caption.Some? then "<caption>" + caption.value + "</caption>" else "";
    html := "<table class=\"" + b.tableClass + "\" style=\"" + b.table + "\">" + cap + b.rows + "</tr></table>";
    html := "\n<front_br><div class=\"table_safe\" style=\"" + b.div + "\">" + html + "</div><back_br>\n";
  }

  // ---------------------------------------------------------------------
  // The loop over tables (src/index.ts:745-848)

  /** A table as the outer expression finds it: its caption, if any, and its cells. */
  datatype TableMatch = TableMatch(caption: Option<string>, cells: seq<Cell>)

  /** The budget is twice the length of the one-group match array. */
  const TableBudget: nat := 4

  /** Tables in the order the loop finds them; at most `TableBudget + 1`
      of them are rendered and the rest are left as text. */
  method ManageTable(tables: seq<TableMatch>, intended: bool, darkmode: string) returns (out: seq<string>)
    ensures |out| == if |tables| <= TableBudget + 1 then |tables| else TableBudget + 1
    ensures forall k :: 0 <= k < |out| ==>
              out[k] == TableHtml(tables[k].caption, tables[k].cells, intended, darkmode)
  {
    var count: int := if tables == [] then 0 else TableBudget;
    out := [];
    while count >= 0 && |out| < |tables|
      invariant |out| <= |tables|
      invariant tables != [] ==> count == TableBudget - |out| && |out| <= TableBudget + 1
      invariant forall k :: 0 <= k < |out| ==>
                  out[k] == TableHtml(tables[k].caption, tables[k].cells, intended, darkmode)
      decreases |tables| - |out|
    {
      var t := tables[|out|];
      var html := BuildTable(t.caption, t.cells, intended, darkmode);
      out := out + [html];
      count := count - 1;
    }
  }
}
