/** Building a book from spreadsheet cells (src/sheetsloader.ts): grouping a
    sheet's cells into rows, turning each row into a page or an option, and
    choosing the start page. The network fetching around it is left out. */
module Loader {
  import opened Results
  import opened Text
  import opened Book
  import opened Directives

  // ---------------------------------------------------------------------------
  // toRows

  /** The rows laid end to end. */
  function Flatten(rows: seq<seq<Cell>>): seq<Cell> {
    if rows == [] then [] else Flatten(rows[..|rows| - 1]) + rows[|rows| - 1]
  }

  /** Every row is non-empty, all cells of a row carry one row label, and
      neighbouring rows carry different labels; stated row by row from the
      last, and as quantifiers by `WellGroupedRows`. */
  predicate WellGrouped(rows: seq<seq<Cell>>) {
    rows == [] ||
    var front := rows[..|rows| - 1];
    var last := rows[|rows| - 1];
    && WellGrouped(front)
    && IsRow(last)
    && (front == [] || front[|front| - 1][0].row != last[0].row)
  }

  /** A non-empty run of cells sharing one row label. */
  predicate IsRow(cells: seq<Cell>) {
    cells != [] && forall j :: 0 <= j < |cells| ==> cells[j].row == cells[0].row
  }

  /** `WellGrouped` is the conjunction of its statements about single rows and
      neighbouring pairs of rows. */
  lemma {:induction false} WellGroupedRows(rows: seq<seq<Cell>>)
    ensures WellGrouped(rows) <==>
              && (forall i :: 0 <= i < |rows| ==> IsRow(rows[i]))
              && (forall i :: 0 < i < |rows| ==> rows[i - 1][0].row != rows[i][0].row)
  {
    if rows != [] {
      var front := rows[..|rows| - 1];
      WellGroupedRows(front);
      assert forall i :: 0 <= i < |front| ==> front[i] == rows[i];
    }
  }

  /** `toRows`: a new row starts whenever a cell's row label differs from the
      previous cell's. */
  function ToRows(cells: seq<Cell>): (rows: seq<seq<Cell>>)
    ensures Flatten(rows) == cells
    ensures WellGrouped(rows)
    ensures cells != [] ==> rows != [] && rows[|rows| - 1][0].row == cells[|cells| - 1].row
  {
    if cells == [] then []
    else
      var init := cells[..|cells| - 1];
      var cell := cells[|cells| - 1];
      var rows := ToRows(init);
      if init == [] || init[|init| - 1].row != cell.row then
        StartRow(rows, cell);
        assert cells == init + [cell];
        rows + [[cell]]
      else
        ContinueRow(rows, cell);
        assert cells == init + [cell];
        rows[..|rows| - 1] + [rows[|rows| - 1] + [cell]]
  }

  lemma StartRow(rows: seq<seq<Cell>>, cell: Cell)
    requires WellGrouped(rows)
    requires rows == [] || rows[|rows| - 1][0].row != cell.row
    ensures WellGrouped(rows + [[cell]])
    ensures Flatten(rows + [[cell]]) == Flatten(rows) + [cell]
    ensures (rows + [[cell]])[|rows|][0].row == cell.row
  {
    var rows' := rows + [[cell]];
    assert rows'[..|rows'| - 1] == rows;
    assert IsRow([cell]);
  }

  lemma ContinueRow(rows: seq<seq<Cell>>, cell: Cell)
    requires WellGrouped(rows)
    requires rows != [] && rows[|rows| - 1][0].row == cell.row
    ensures var last := rows[|rows| - 1];
            var rows' := rows[..|rows| - 1] + [last + [cell]];
            && WellGrouped(rows') && Flatten(rows') == Flatten(rows) + [cell]
            && rows' != [] && rows'[|rows'| - 1][0].row == cell.row
  {
    var front := rows[..|rows| - 1];
    var last := rows[|rows| - 1];
    var rows' := front + [last + [cell]];
    assert IsRow(last);
    assert IsRow(last + [cell]);
    assert rows'[..|rows'| - 1] == front;
    assert Flatten(rows) == Flatten(front) + last;
  }

  /** Dropping the last row, or the last cell of a longer last row, keeps
      the rows well grouped. */
  lemma WellGroupedInit(rows: seq<seq<Cell>>)
    requires WellGrouped(rows) && rows != []
    ensures WellGrouped(rows[..|rows| - 1])
    ensures var last := rows[|rows| - 1];
            |last| > 1 ==> WellGrouped(rows[..|rows| - 1] + [last[..|last| - 1]])
  {
    var front := rows[..|rows| - 1];
    var last := rows[|rows| - 1];
    if |last| > 1 {
      var rows' := front + [last[..|last| - 1]];
      assert rows'[..|rows'| - 1] == front;
      assert IsRow(last[..|last| - 1]);
    }
  }

  /** `toRows` is the only well-grouped way to cut a cell sequence into rows. */
  lemma {:induction false} ToRowsUnique(cells: seq<Cell>, rows: seq<seq<Cell>>)
    requires WellGrouped(rows) && Flatten(rows) == cells
    ensures rows == ToRows(cells)
    decreases |cells|, 1
  {
    if rows != [] {
      WellGroupedInit(rows);
      if |rows[|rows| - 1]| == 1 {
        UniqueWhenRowStarts(cells, rows);
      } else {
        UniqueWhenRowContinues(cells, rows);
      }
    }
  }

  /** The last cell is a row of its own. */
  lemma {:induction false} UniqueWhenRowStarts(cells: seq<Cell>, rows: seq<seq<Cell>>)
    requires WellGrouped(rows) && Flatten(rows) == cells
    requires rows != [] && |rows[|rows| - 1]| == 1
    ensures rows == ToRows(cells)
    decreases |cells|, 0
  {
    var front := rows[..|rows| - 1];
    var cell := rows[|rows| - 1][0];
    var init := Flatten(front);
    assert rows == front + [[cell]] && cells == init + [cell] by {
      assert rows[|rows| - 1] == [cell];
      FlattenSnoc(front, [cell]);
    }
    if init != [] {
      LastLabel(front);
    }
    ToRowsUnique(init, front);
    StartLastRow(init, cell, front);
  }

  /** The last cell continues the row of the cell before it. */
  lemma {:induction false} UniqueWhenRowContinues(cells: seq<Cell>, rows: seq<seq<Cell>>)
    requires WellGrouped(rows) && Flatten(rows) == cells
    requires rows != [] && |rows[|rows| - 1]| > 1
    ensures rows == ToRows(cells)
    decreases |cells|, 0
  {
    var front := rows[..|rows| - 1];
    var last := rows[|rows| - 1];
    var last' := last[..|last| - 1];
    var cell := last[|last| - 1];
    var init := Flatten(front + [last']);
    assert rows == front + [last' + [cell]] && cells == init + [cell] && init[|init| - 1] == last'[|last'| - 1] by {
      assert last == last' + [cell];
      FlattenSnoc(front, last);
      FlattenSnoc(front, last');
    }
    assert init[|init| - 1].row == cell.row by {
      assert IsRow(last);
      assert last'[|last'| - 1] == last[|last| - 2];
    }
    WellGroupedInit(rows);
    ToRowsUnique(init, front + [last']);
    ContinueLastRow(init, cell, front, last');
  }

  lemma FlattenSnoc(front: seq<seq<Cell>>, row: seq<Cell>)
    ensures Flatten(front + [row]) == Flatten(front) + row
  {
    assert (front + [row])[..|front|] == front;
  }

  /** The last cell of well-grouped rows carries the last row's label. */
  lemma LastLabel(rows: seq<seq<Cell>>)
    requires WellGrouped(rows) && rows != []
    ensures Flatten(rows) != [] && Flatten(rows)[|Flatten(rows)| - 1].row == rows[|rows| - 1][0].row
  {
    var last := rows[|rows| - 1];
    assert Flatten(rows) == Flatten(rows[..|rows| - 1]) + last;
    assert IsRow(last);
  }

  /** A cell with a new row label starts a row of its own. */
  lemma StartLastRow(init: seq<Cell>, cell: Cell, rows: seq<seq<Cell>>)
    requires ToRows(init) == rows
    requires init == [] || init[|init| - 1].row != cell.row
    ensures ToRows(init + [cell]) == rows + [[cell]]
  {
    assert (init + [cell])[..|init|] == init;
  }

  /** A cell with the previous cell's row label joins the last row. */
  lemma ContinueLastRow(init: seq<Cell>, cell: Cell, front: seq<seq<Cell>>, last: seq<Cell>)
    requires ToRows(init) == front + [last]
    requires init != [] && init[|init| - 1].row == cell.row
    ensures ToRows(init + [cell]) == front + [last + [cell]]
  {
    assert (init + [cell])[..|init|] == init;
    assert (front + [last])[..|front|] == front;
  }

  // ---------------------------------------------------------------------------
  // processRow

  /** The text cell of a row: the second cell, or `undefined` (falsy, like the
      empty text) when the row has only an id cell. */
  function RowText(row: seq<Cell>): string {
    if |row| >= 2 then row[1].content else ""
  }

  /** The cells after the id and text cells, destructured into directives. */
  function AttributeCells(row: seq<Cell>): seq<Parts> {
    if |row| <= 2 then [] else MapSeq(row[2..], (c: Cell) => Destructure(c.content))
  }

  function MapSeq<T, U>(xs: seq<T>, f: T -> U): (r: seq<U>)
    ensures |r| == |xs| && forall i :: 0 <= i < |xs| ==> r[i] == f(xs[i])
  {
    seq(|xs|, i requires 0 <= i < |xs| => f(xs[i]))
  }

  /** The key a row's page is stored under: the sheet's prefix, then the id. */
  function PageKey(row: seq<Cell>, prefix: string): string
    requires row != []
  {
    prefix + row[0].content
  }

  /** `q` is `p` with possibly more options appended: text, prefix, effects and
      flags are untouched and the old options stay in place. */
  predicate Extends(p: GamePage, q: GamePage) {
    q == p.(options := q.options) && p.options <= q.options
  }

  /** The page a row creates: its text, the sheet's prefix, and the row's
      attribute cells applied as page attributes. */
  function NewPage(row: seq<Cell>, prefix: string, num: NumberReader): (r: Result<GamePage>)
    ensures r.Ok? ==> r.value.prefix == prefix && r.value.options == []
  {
    var r := ApplyPageAttributes(FreshPage(RowText(row), prefix), AttributeCells(row), num);
    if r.Ok? then PageAttributesFlags(FreshPage(RowText(row), prefix), AttributeCells(row), num); r
    else r
  }

  /** The page with one more option: the row's text and its attribute cells
      applied as option attributes. */
  function AddOption(page: GamePage, row: seq<Cell>, num: NumberReader): (r: Result<GamePage>)
    ensures r.Ok? ==> Extends(page, r.value)
  {
    var option :- ApplyOptionAttributes(FreshOption(RowText(row)), AttributeCells(row), num);
    Ok(page.(options := page.options + [option]))
  }

  /** `processRow`: a row with an empty id changes nothing; otherwise only the
      page under the row's key may change, and existing pages only gain options. */
  function ProcessRow(book: GameBook, row: seq<Cell>, prefix: string, num: NumberReader): (r: Result<GameBook>)
    requires row != []
    ensures row[0].content == "" ==> r == Ok(book)
    ensures r.Ok? ==> Grows(book, r.value) && NewPagesUnder(book, r.value, prefix)
    ensures r.Ok? && row[0].content != "" ==> r.value.pages.Keys == book.pages.Keys + {PageKey(row, prefix)}
    ensures r.Ok? ==> forall k :: k in book.pages && k != PageKey(row, prefix) ==> r.value.pages[k] == book.pages[k]
  {
    var key := PageKey(row, prefix);
    if row[0].content == "" then Ok(book)
    else if key !in book.pages then
      if RowText(row) == "" then Err(MissingPageText(key))
      else
        var page :- NewPage(row, prefix, num);
        StorePage(book, key, page, prefix);
        Ok(book.(pages := book.pages[key := page]))
    else if RowText(row) == "" then Ok(book)
    else
      var page :- AddOption(book.pages[key], row, num);
      StorePage(book, key, page, prefix);
      Ok(book.(pages := book.pages[key := page]))
  }

  /** Storing a page that extends the one under its key, or a new page whose
      key carries the prefix, grows the book at that key only. */
  lemma StorePage(book: GameBook, key: string, page: GamePage, prefix: string)
    requires key in book.pages ==> Extends(book.pages[key], page)
    requires key !in book.pages ==> page.prefix == prefix && prefix <= key
    ensures var b := book.(pages := book.pages[key := page]);
            && Grows(book, b) && NewPagesUnder(book, b, prefix)
            && b.pages.Keys == book.pages.Keys + {key}
            && forall k :: k in book.pages && k != key ==> b.pages[k] == book.pages[k]
  {
  }

  /** The first row for a key creates its page from the row's text and
      attribute cells, or fails when the text is missing or empty or an
      attribute cell does not parse. */
  lemma FirstRowCreatesPage(book: GameBook, row: seq<Cell>, prefix: string, num: NumberReader)
    requires row != [] && row[0].content != "" && PageKey(row, prefix) !in book.pages
    ensures var r := ProcessRow(book, row, prefix, num);
            && (r.Ok? <==> RowText(row) != "" && EffectsOf(AttributeCells(row), PageRow, num).Ok?)
            && (RowText(row) == "" ==> r == Err(MissingPageText(PageKey(row, prefix))))
            && (r.Ok? ==>
                  var page := r.value.pages[PageKey(row, prefix)];
                  && page.text == RowText(row)
                  && page.prefix == prefix
                  && page.options == []
                  && page.effects == EffectsOf(AttributeCells(row), PageRow, num).value
                  && (page.start <==> HasKeyword(AttributeCells(row), "START"))
                  && (page.untimed <==> HasKeyword(AttributeCells(row), "UNTIMED")))
  {
    var start := FreshPage(RowText(row), prefix);
    if RowText(row) != "" && ApplyPageAttributes(start, AttributeCells(row), num).Ok? {
      PageAttributesFlags(start, AttributeCells(row), num);
    }
  }

  /** A later row for a key appends one option when it has text, and changes
      nothing when it has none. */
  lemma LaterRowAddsOption(book: GameBook, row: seq<Cell>, prefix: string, num: NumberReader)
    requires row != [] && row[0].content != "" && PageKey(row, prefix) in book.pages
    ensures var r := ProcessRow(book, row, prefix, num);
            && (RowText(row) == "" ==> r == Ok(book))
            && (r.Ok? <==> RowText(row) == "" || EffectsOf(AttributeCells(row), OptionRow, num).Ok?)
            && (r.Ok? && RowText(row) != "" ==>
                  var before := book.pages[PageKey(row, prefix)];
                  var after := r.value.pages[PageKey(row, prefix)];
                  var option := after.options[|after.options| - 1];
                  && after == before.(options := before.options + [option])
                  && option.text == RowText(row)
                  && option.effects == EffectsOf(AttributeCells(row), OptionRow, num).value
                  && (option.default <==> HasKeyword(AttributeCells(row), "DEFAULT")))
  {
    var option := FreshOption(RowText(row));
    if RowText(row) != "" && ApplyOptionAttributes(option, AttributeCells(row), num).Ok? {
      OptionAttributesFlags(option, AttributeCells(row), num);
    }
  }

  // ---------------------------------------------------------------------------
  // One sheet, and the whole book

  /** `b'` keeps every page of `b`, each at most extended by new options, and
      the same start page. */
  predicate Grows(b: GameBook, b': GameBook) {
    && b'.startPage == b.startPage
    && forall k :: k in b.pages ==> k in b'.pages && Extends(b.pages[k], b'.pages[k])
  }

  /** Every page `b'` has beyond those of `b` is namespaced by `prefix`: its key
      starts with the prefix and it records the prefix. */
  predicate NewPagesUnder(b: GameBook, b': GameBook, prefix: string) {
    forall k :: k in b'.pages && k !in b.pages ==>
      b'.pages[k].prefix == prefix && prefix <= k
  }

  /** The rows of one sheet, processed in order; the first failure ends it. */
  function ProcessRows(book: GameBook, rows: seq<seq<Cell>>, prefix: string, num: NumberReader): (r: Result<GameBook>)
    requires forall i :: 0 <= i < |rows| ==> rows[i] != []
    ensures r.Ok? ==> Grows(book, r.value)
    ensures r.Ok? ==> NewPagesUnder(book, r.value, prefix)
    decreases |rows|
  {
    if rows == [] then Ok(book)
    else
      var b :- ProcessRow(book, rows[0], prefix, num);
      assert Grows(book, b) && NewPagesUnder(book, b, prefix);
      var r := ProcessRows(b, rows[1..], prefix, num);
      if r.Ok? then
        GrowsTransitive(book, b, r.value);
        NewPagesTransitive(book, b, r.value, prefix);
        r
      else r
  }

  lemma GrowsTransitive(a: GameBook, b: GameBook, c: GameBook)
    requires Grows(a, b) && Grows(b, c)
    ensures Grows(a, c)
  {
  }

  lemma NewPagesTransitive(a: GameBook, b: GameBook, c: GameBook, prefix: string)
    requires Grows(a, b) && Grows(b, c)
    requires NewPagesUnder(a, b, prefix) && NewPagesUnder(b, c, prefix)
    ensures NewPagesUnder(a, c, prefix)
  {
  }

  /** One sheet of the spreadsheet: its title is the prefix of its pages. */
  datatype Sheet = Sheet(title: string, cells: seq<Cell>)

  /** The pure step of `loadSheets` for one fetched sheet: group the cells into
      rows, drop the header row, process the rest. */
  function ProcessSheet(book: GameBook, sheet: Sheet, num: NumberReader): (r: Result<GameBook>)
    ensures r.Ok? ==> Grows(book, r.value)
    ensures r.Ok? ==> NewPagesUnder(book, r.value, sheet.title)
  {
    var rows := ToRows(sheet.cells);
    if rows == [] then Ok(book)
    else
      WellGroupedRows(rows);
      ProcessRows(book, rows[1..], sheet.title, num)
  }

  /** The sheets, processed one after the other. */
  function ProcessSheets(book: GameBook, sheets: seq<Sheet>, num: NumberReader): (r: Result<GameBook>)
    ensures r.Ok? ==> Grows(book, r.value)
    decreases |sheets|
  {
    if sheets == [] then Ok(book)
    else
      var b :- ProcessSheet(book, sheets[0], num);
      ProcessSheets(b, sheets[1..], num)
  }

  /** The keys of the pages marked START. */
  function StartKeys(pages: map<string, GamePage>): set<string> {
    set k | k in pages && pages[k].start
  }

  /** The end of `loadBook`: exactly one page may be marked START, and it
      becomes the start page. */
  function SelectStart(book: GameBook): (r: Result<GameBook>)
    ensures r.Ok? <==> |StartKeys(book.pages)| == 1
    ensures StartKeys(book.pages) == {} ==> r == Err(NoStartPage)
    ensures |StartKeys(book.pages)| > 1 ==> r == Err(SeveralStartPages)
    ensures r.Ok? ==> r.value.pages == book.pages
    ensures r.Ok? ==> forall k :: k in book.pages && book.pages[k].start ==> r.value.startPage == Some(book.pages[k])
  {
    var starts := StartKeys(book.pages);
    if starts == {} then Err(NoStartPage)
    else if |starts| > 1 then Err(SeveralStartPages)
    else
      var k :| k in starts;
      assert forall k' :: k' in book.pages && book.pages[k'].start ==> k' in starts;
      assert starts == {k} by {
        assert |starts - {k}| == 0;
        assert forall k' :: k' in starts && k' != k ==> k' in starts - {k};
      }
      Ok(book.(startPage := Some(book.pages[k])))
  }

  /** The pure part of `loadBook`: every sheet in order, then the start page. */
  function BuildBook(sheets: seq<Sheet>, num: NumberReader): (r: Result<GameBook>)
    ensures r.Ok? ==> r.value.startPage.Some? && r.value.startPage.value.start
    ensures r.Ok? ==> |StartKeys(r.value.pages)| == 1
  {
    var book :- ProcessSheets(EmptyBook, sheets, num);
    SelectStart(book)
  }
}
