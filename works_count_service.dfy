/** `Hyrax::WorksCountService#search_results_with_work_count`: one row per
    work found by the search, the rows sorted by the column the request
    names (ascending for "asc", descending otherwise), and the table
    hash the DataTables front end reads. The search itself and the
    formatting of creation dates happen outside this model: the documents,
    with their dates already formatted, and the total hit count are
    inputs. */
module WorksCount {
  import opened Wrappers
  import RubyInteger

  /** A cell of a result row: nil, an integer, a string, or an array of
      strings (a multi-valued Solr field). */
  datatype Cell = Null | Num(n: int) | Text(s: string) | Strings(items: seq<string>)

  type Row = seq<Cell>

  /** The fields of a search document that the rows are built from. The
      title is the whole multi-valued `title_tesim` field; the type is the
      first value of `human_readable_type_tesim`. */
  datatype Doc = Doc(title: seq<string>, createdDate: string, humanReadableType: string, visibility: string)

  /** The row for one work: the title array, creation date, a work count of
      0, type and visibility. */
  function MakeRow(d: Doc): (row: Row) {
    [Strings(d.title), Text(d.createdDate), Num(0), Text(d.humanReadableType), Text(d.visibility)]
  }

  /** The rows built from the documents, in document order. */
  function Rows(docs: seq<Doc>): (rows: seq<Row>) {
    seq(|docs|, i requires 0 <= i < |docs| => MakeRow(docs[i]))
  }

  /** Ruby's `row[index]`: a negative index counts from the end, and an
      index outside the row gives nil. */
  function At(row: Row, index: int): (cell: Cell) {
    if 0 <= index < |row| then row[index]
    else if -|row| <= index < 0 then row[|row| + index]
    else Null
  }

  /** `a <=> b` is not positive for strings: lexicographic by character code
      (the order of Ruby's byte-wise comparison on UTF-8). */
  predicate StrLe(a: string, b: string)
    decreases |a|
  {
    a == [] || (b != [] && (a[0] < b[0] || (a[0] == b[0] && StrLe(a[1..], b[1..]))))
  }

  lemma {:induction false} StrLeTotal(a: string, b: string)
    ensures StrLe(a, b) || StrLe(b, a)
    decreases |a|
  {
    if a != [] && b != [] && a[0] == b[0] {
      StrLeTotal(a[1..], b[1..]);
    }
  }

  lemma {:induction false} StrLeTransitive(a: string, b: string, c: string)
    requires StrLe(a, b) && StrLe(b, c)
    ensures StrLe(a, c)
    decreases |a|
  {
    if a != [] && b != [] && c != [] && a[0] == b[0] && b[0] == c[0] {
      StrLeTransitive(a[1..], b[1..], c[1..]);
    }
  }

  lemma {:induction false} StrLeAntisymmetric(a: string, b: string)
    requires StrLe(a, b) && StrLe(b, a)
    ensures a == b
    decreases |a|
  {
    if a != [] {
      StrLeAntisymmetric(a[1..], b[1..]);
      assert a == [a[0]] + a[1..] && b == [b[0]] + b[1..];
    }
  }

  /** `a <=> b` is not positive for arrays of strings: the first pair of
      unequal elements decides, and when one array is a prefix of the other
      the shorter comes first. */
  predicate StringsLe(a: seq<string>, b: seq<string>)
    decreases |a|
  {
    a == [] || (b != [] && (if a[0] == b[0] then StringsLe(a[1..], b[1..]) else StrLe(a[0], b[0])))
  }

  lemma {:induction false} StringsLeTotal(a: seq<string>, b: seq<string>)
    ensures StringsLe(a, b) || StringsLe(b, a)
    decreases |a|
  {
    if a != [] && b != [] {
      if a[0] == b[0] {
        StringsLeTotal(a[1..], b[1..]);
      } else {
        StrLeTotal(a[0], b[0]);
      }
    }
  }

  lemma {:induction false} StringsLeTransitive(a: seq<string>, b: seq<string>, c: seq<string>)
    requires StringsLe(a, b) && StringsLe(b, c)
    ensures StringsLe(a, c)
    decreases |a|
  {
    if a != [] {
      if a[0] == b[0] && b[0] == c[0] {
        StringsLeTransitive(a[1..], b[1..], c[1..]);
      } else if a[0] != b[0] && b[0] != c[0] {
        StrLeTransitive(a[0], b[0], c[0]);
        if a[0] == c[0] {
          StrLeAntisymmetric(a[0], b[0]);
        }
      }
    }
  }

  lemma {:induction false} StringsLeAntisymmetric(a: seq<string>, b: seq<string>)
    requires StringsLe(a, b) && StringsLe(b, a)
    ensures a == b
    decreases |a|
  {
    if a != [] {
      if a[0] == b[0] {
        StringsLeAntisymmetric(a[1..], b[1..]);
        assert a == [a[0]] + a[1..] && b == [b[0]] + b[1..];
      } else {
        StrLeAntisymmetric(a[0], b[0]);
      }
    }
  }

  /** The kind of a cell. Ruby raises when `<=>` meets two kinds; the rows
      built here never put two kinds in one column (`ColumnsHaveOneKind`),
      so the order between kinds only makes the relation total. */
  function Kind(c: Cell): (kind: nat) {
    match c
    case Null => 0
    case Num(_) => 1
    case Text(_) => 2
    case Strings(_) => 3
  }

  /** `x <=> y` is not positive. */
  predicate CellLe(x: Cell, y: Cell) {
    if Kind(x) != Kind(y) then Kind(x) < Kind(y)
    else match x
      case Null => true
      case Num(a) => a <= y.n
      case Text(a) => StrLe(a, y.s)
      case Strings(a) => StringsLe(a, y.items)
  }

  lemma CellLeTotal(x: Cell, y: Cell)
    ensures CellLe(x, y) || CellLe(y, x)
  {
    if x.Text? && y.Text? {
      StrLeTotal(x.s, y.s);
    } else if x.Strings? && y.Strings? {
      StringsLeTotal(x.items, y.items);
    }
  }

  lemma CellLeTransitive(x: Cell, y: Cell, z: Cell)
    requires CellLe(x, y) && CellLe(y, z)
    ensures CellLe(x, z)
  {
    if x.Text? && y.Text? && z.Text? {
      StrLeTransitive(x.s, y.s, z.s);
    } else if x.Strings? && y.Strings? && z.Strings? {
      StringsLeTransitive(x.items, y.items, z.items);
    }
  }

  /** Row `x` may come before row `y`: the comparison block of the
      ascending sort, or of the descending one with its arguments swapped. */
  predicate InOrder(column: int, ascending: bool, x: Row, y: Row) {
    if ascending then CellLe(At(x, column), At(y, column)) else CellLe(At(y, column), At(x, column))
  }

  /** Every pair of rows is ordered one way or the other, and the order is
      transitive: a total preorder, which is what `sort!` needs. */
  lemma InOrderIsTotalPreorder(column: int, ascending: bool)
    ensures forall x, y :: InOrder(column, ascending, x, y) || InOrder(column, ascending, y, x)
    ensures forall x, y, z :: InOrder(column, ascending, x, y) && InOrder(column, ascending, y, z)
                              ==> InOrder(column, ascending, x, z)
  {
    forall x, y ensures InOrder(column, ascending, x, y) || InOrder(column, ascending, y, x) {
      CellLeTotal(At(x, column), At(y, column));
    }
    forall x, y, z | InOrder(column, ascending, x, y) && InOrder(column, ascending, y, z)
      ensures InOrder(column, ascending, x, z)
    {
      if ascending {
        CellLeTransitive(At(x, column), At(y, column), At(z, column));
      } else {
        CellLeTransitive(At(z, column), At(y, column), At(x, column));
      }
    }
  }

  /** The rows are non-decreasing (ascending) or non-increasing (otherwise)
      in the given column. */
  predicate SortedRows(rows: seq<Row>, column: int, ascending: bool) {
    forall i, j :: 0 <= i < j < |rows| ==> InOrder(column, ascending, rows[i], rows[j])
  }

  /** Every row built from the documents has one kind of cell in each
      column, so no two cells of different kinds are ever compared. */
  lemma ColumnsHaveOneKind(docs: seq<Doc>, column: int)
    ensures forall i, j :: 0 <= i < |docs| && 0 <= j < |docs| ==>
      Kind(At(Rows(docs)[i], column)) == Kind(At(Rows(docs)[j], column))
  {
  }

  lemma CellLeAntisymmetric(x: Cell, y: Cell)
    requires CellLe(x, y) && CellLe(y, x)
    ensures x == y
  {
    if x.Text? && y.Text? {
      StrLeAntisymmetric(x.s, y.s);
    } else if x.Strings? && y.Strings? {
      StringsLeAntisymmetric(x.items, y.items);
    }
  }

  /** The sort keys of the rows: each row's cell in the sort column. */
  function Keys(rows: seq<Row>, column: int): (keys: seq<Cell>)
    ensures |keys| == |rows|
    ensures forall i :: 0 <= i < |rows| ==> keys[i] == At(rows[i], column)
  {
    if rows == [] then [] else [At(rows[0], column)] + Keys(rows[1..], column)
  }

  /** Removing one row from sorted rows leaves them sorted. */
  lemma SortedWithout(t: seq<Row>, k: nat, column: int, ascending: bool)
    requires k < |t| && SortedRows(t, column, ascending)
    ensures SortedRows(t[..k] + t[k + 1..], column, ascending)
  {
    var u := t[..k] + t[k + 1..];
    forall i, j | 0 <= i < j < |u|
      ensures InOrder(column, ascending, u[i], u[j])
    {
      var i' := if i < k then i else i + 1;
      var j' := if j < k then j else j + 1;
      assert u[i] == t[i'] && u[j] == t[j'];
    }
  }

  /** The first of sorted rows may precede any row of a permutation of them. */
  lemma FirstIsLeast(s: seq<Row>, t: seq<Row>, column: int, ascending: bool)
    requires multiset(s) == multiset(t) && s != [] && t != []
    requires SortedRows(s, column, ascending)
    ensures InOrder(column, ascending, s[0], t[0])
  {
    assert t[0] in multiset(s);
    var m :| 0 <= m < |s| && s[m] == t[0];
    if m == 0 {
      CellLeTotal(At(s[0], column), At(s[0], column));
    }
  }

  /** A position of `t` holding the first row of `s`; the other rows of `t`
      are a permutation of the rest of `s`. */
  lemma RemoveOne(s: seq<Row>, t: seq<Row>) returns (k: nat)
    requires multiset(s) == multiset(t) && s != []
    ensures k < |t| && t[k] == s[0]
    ensures multiset(t[..k] + t[k + 1..]) == multiset(s[1..])
  {
    assert s[0] in multiset(t);
    k :| 0 <= k < |t| && t[k] == s[0];
    var x := s[0];
    var a, b := t[..k], t[k + 1..];
    assert t == a + [x] + b;
    assert multiset(t) == multiset(a) + multiset{x} + multiset(b);
    assert s == [x] + s[1..];
    assert multiset(s) == multiset{x} + multiset(s[1..]);
    assert multiset(a + b) == multiset(a) + multiset(b);
    assert forall y :: (multiset(a) + multiset(b))[y] == multiset(s[1..])[y] by {
      forall y ensures (multiset(a) + multiset(b))[y] == multiset(s[1..])[y] {
        assert multiset(t)[y] == multiset(s)[y];
      }
    }
    assert multiset(a) + multiset(b) == multiset(s[1..]);
  }

  /** In sorted rows, every row up to one whose key is the least has that key. */
  lemma LeastKeyPrefix(t: seq<Row>, k: nat, column: int, ascending: bool)
    requires k < |t| && SortedRows(t, column, ascending)
    requires InOrder(column, ascending, t[k], t[0])
    ensures forall i :: 0 <= i <= k ==> At(t[i], column) == At(t[k], column)
  {
    forall i | 0 <= i <= k
      ensures At(t[i], column) == At(t[k], column)
    {
      var a, b, c := At(t[0], column), At(t[i], column), At(t[k], column);
      if i == 0 && 0 < k {
        assert InOrder(column, ascending, t[0], t[k]);
        CellLeAntisymmetric(a, c);
      } else if 0 < i < k {
        assert InOrder(column, ascending, t[0], t[i]) && InOrder(column, ascending, t[i], t[k]);
        if ascending {
          CellLeTransitive(c, a, b);
        } else {
          CellLeTransitive(b, a, c);
        }
        CellLeAntisymmetric(b, c);
      }
    }
  }

  /** Removing row `k` of rows whose first `k + 1` keys are all `key`
      takes one `key` off the front of the keys. */
  lemma KeysWithout(t: seq<Row>, k: nat, column: int, key: Cell)
    requires k < |t|
    requires forall i :: 0 <= i <= k ==> At(t[i], column) == key
    ensures Keys(t, column) == [key] + Keys(t[..k] + t[k + 1..], column)
  {
    var u := t[..k] + t[k + 1..];
    var kt, ku := Keys(t, column), Keys(u, column);
    forall i | 0 < i < |t|
      ensures kt[i] == ku[i - 1]
    {
      if i <= k {
        assert u[i - 1] == t[i - 1];
      } else {
        assert u[i - 1] == t[i];
      }
    }
  }

  /** However a sort breaks ties, its output is determined up to rows with
      equal keys: two sorted permutations of the same rows have the same
      sequence of keys. */
  lemma {:induction false} SortedPermutationsAgreeOnKeys(s: seq<Row>, t: seq<Row>, column: int, ascending: bool)
    requires multiset(s) == multiset(t)
    requires SortedRows(s, column, ascending) && SortedRows(t, column, ascending)
    ensures Keys(s, column) == Keys(t, column)
    decreases |s|
  {
    assert |s| == |multiset(s)| == |multiset(t)| == |t|;
    if s == [] {
      return;
    }
    var x := s[0];
    var k := RemoveOne(s, t);
    var u := t[..k] + t[k + 1..];
    SortedWithout(t, k, column, ascending);
    SortedPermutationsAgreeOnKeys(s[1..], u, column, ascending);
    FirstIsLeast(s, t, column, ascending);
    LeastKeyPrefix(t, k, column, ascending);
    KeysWithout(t, k, column, At(x, column));
    assert Keys(s, column) == [At(x, column)] + Keys(s[1..], column);
  }

  /** `results.sort!` with the comparison block for `column` and the
      direction: `a` is reordered in place into a permutation of itself
      that is sorted. Ruby's sort is not stable, so nothing is promised
      about the order of rows with equal keys. */
  method SortRows(a: array<Row>, column: int, ascending: bool)
    modifies a
    ensures SortedRows(a[..], column, ascending)
    ensures multiset(a[..]) == multiset(old(a[..]))
  {
    InOrderIsTotalPreorder(column, ascending);
    var i := 0;
    while i < a.Length
      invariant 0 <= i <= a.Length
      invariant forall p, q :: 0 <= p < q < i ==> InOrder(column, ascending, a[p], a[q])
      invariant multiset(a[..]) == multiset(old(a[..]))
    {
      var j := i;
      while j > 0 && !InOrder(column, ascending, a[j - 1], a[j])
        invariant 0 <= j <= i
        invariant forall p, q :: 0 <= p < q <= i && p != j && q != j ==> InOrder(column, ascending, a[p], a[q])
        invariant forall q :: j < q <= i ==> InOrder(column, ascending, a[j], a[q])
        invariant multiset(a[..]) == multiset(old(a[..]))
      {
        a[j - 1], a[j] := a[j], a[j - 1];
        j := j - 1;
      }
      forall p, q | 0 <= p < q <= i
        ensures InOrder(column, ascending, a[p], a[q])
      {
        if q == j && p < j - 1 {
          assert InOrder(column, ascending, a[p], a[j - 1]);
        }
      }
      i := i + 1;
    }
  }

  /** `params[:order]['0']`: the requested sort column and direction. */
  datatype OrderParam = OrderParam(column: Option<string>, dir: Option<string>)

  /** The request parameters read here. A missing `order['0']` is `None`. */
  datatype Params = Params(draw: Option<string>, order: Option<OrderParam>)

  /** The search result: its documents and the response's `numFound`. */
  datatype SearchResponse = SearchResponse(documents: seq<Doc>, numFound: int)

  /** The hash returned to the front end. */
  datatype Table = Table(draw: Option<string>, recordsTotal: int, recordsFiltered: nat, data: seq<Row>)

  /** What Ruby raises: NoMethodError on a missing `order['0']`, and
      TypeError or ArgumentError from `Integer` on a column that is nil or
      not an integer. */
  datatype Error = MissingOrder | InvalidColumn(text: Option<string>) | IndexTooBig(column: int)

  /** The column fits a C `long` of 64 bits. `row[column]` converts a larger
      Integer with `NUM2LONG`, which raises RangeError. */
  predicate FitsLong(column: int) {
    -0x8000_0000_0000_0000 <= column < 0x8000_0000_0000_0000
  }

  /** `Integer(params[:order]['0'][:column])`. */
  function SortColumn(params: Params): (r: Result<int, Error>)
    ensures params.order.None? ==> r == Failure(MissingOrder)
    ensures r.Success? ==>
      && params.order.Some? && params.order.value.column.Some?
      && RubyInteger.ParseInteger(params.order.value.column.value) == Some(r.value)
    ensures r.Failure? && params.order.Some? ==> r.error == InvalidColumn(params.order.value.column)
    ensures r.Success? <==>
      && params.order.Some? && params.order.value.column.Some?
      && RubyInteger.ParseInteger(params.order.value.column.value).Some?
  {
    match params.order
    case None => Failure(MissingOrder)
    case Some(order) =>
      match order.column
      case None => Failure(InvalidColumn(None))
      case Some(text) =>
        match RubyInteger.ParseInteger(text)
        case None => Failure(InvalidColumn(Some(text)))
        case Some(column) => Success(column)
  }

  /** `search_results_with_work_count`: the rows of `data` are the rows
      built from the documents, each of width 5 with 0 in the third
      place, sorted by the requested column in the requested direction;
      `draw` is echoed, `recordsTotal` is the search's `numFound` and
      `recordsFiltered` the number of documents. A bad order parameter
      raises, and so does a column beyond a 64-bit `long` once the sort
      compares two rows. */
  method SearchResultsWithWorkCount(params: Params, works: SearchResponse) returns (r: Result<Table, Error>)
    ensures r.Failure? <==> SortColumn(params).Failure?
                            || (|works.documents| >= 2 && !FitsLong(SortColumn(params).value))
    ensures SortColumn(params).Failure? ==> r == Failure(SortColumn(params).error)
    ensures SortColumn(params).Success? && r.Failure? ==> r.error == IndexTooBig(SortColumn(params).value)
    ensures r.Success? ==>
      var column := SortColumn(params).value;
      var ascending := params.order.value.dir == Some("asc");
      && r.value.draw == params.draw
      && r.value.recordsTotal == works.numFound
      && r.value.recordsFiltered == |works.documents|
      && multiset(r.value.data) == multiset(Rows(works.documents))
      && SortedRows(r.value.data, column, ascending)
      && forall k :: 0 <= k < |r.value.data| ==> |r.value.data[k]| == 5 && r.value.data[k][2] == Num(0)
  {
    var sortColumn := SortColumn(params);
    if sortColumn.Failure? {
      return Failure(sortColumn.error);
    }
    var column := sortColumn.value;
    var docs := works.documents;
    var results: seq<Row> := [];
    var i := 0;
    while i < |docs|
      invariant 0 <= i <= |docs|
      invariant |results| == i
      invariant forall k :: 0 <= k < i ==> results[k] == MakeRow(docs[k])
    {
      results := results + [MakeRow(docs[i])];
      i := i + 1;
    }
    assert results == Rows(docs);
    if |results| >= 2 && !FitsLong(column) {
      return Failure(IndexTooBig(column));
    }

    var ascending := params.order.value.dir == Some("asc");
    var a := new Row[|results|](k requires 0 <= k < |results| => results[k]);
    assert a[..] == results;
    SortRows(a, column, ascending);
    var data := a[..];
    RowsOfPermutation(data, docs);
    r := Success(Table(params.draw, works.numFound, |docs|, data));
  }

  /** Every row of a permutation of the built rows has the built shape. */
  lemma RowsOfPermutation(data: seq<Row>, docs: seq<Doc>)
    requires multiset(data) == multiset(Rows(docs))
    ensures forall k :: 0 <= k < |data| ==> |data[k]| == 5 && data[k][2] == Num(0)
  {
    forall k | 0 <= k < |data|
      ensures |data[k]| == 5 && data[k][2] == Num(0)
    {
      assert data[k] in multiset(Rows(docs));
      var m :| 0 <= m < |docs| && Rows(docs)[m] == data[k];
    }
  }
}
