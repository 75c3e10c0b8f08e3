/** The clean-up that turns the rows of a bank statement into the ledger the
    dashboard works on: rows without a date are dropped, missing descriptions
    and amounts get defaults, amount text becomes numbers, rows are ordered by
    date and the balance column is recomputed as a running total. */
module Ledger {
  import opened Wrappers
  import opened Sequences
  import Amounts

  /** The description given to a row that has none. */
  const Miscellaneous := "Miscellaneous"

  /** A DATE or VALUE DATE cell as the date parser sees it: a missing cell,
      text that is not a date, or a day (counted from any fixed epoch). */
  datatype RawDate = Blank | Unparsable | OnDay(day: int)

  /** One statement row as read, every cell still text (or missing). */
  datatype RawRow = RawRow(
    date: RawDate,
    valueDate: RawDate,
    details: Option<string>,
    withdrawal: Option<string>,
    deposit: Option<string>,
    balance: Option<string>)

  /** One ledger row. A date the parser could not read is `None`. */
  datatype Transaction = Transaction(
    date: Option<int>,
    valueDate: Option<int>,
    details: string,
    withdrawal: real,
    deposit: real,
    balance: Option<real>)

  /** The three amount columns, in the order they are converted. */
  datatype Column = WithdrawalColumn | DepositColumn | BalanceColumn

  /** Conversion of a whole column stops at the first cell that is not a
      number; the error names the column and that cell's stripped text. */
  datatype AmountError = AmountError(column: Column, text: string)

  /** The date parser in its lenient mode: anything that is not a day
      becomes "no date". */
  function Coerce(d: RawDate): (r: Option<int>)
    ensures r.Some? <==> d.OnDay?
    ensures r.Some? ==> r.value == d.day
  {
    match d
    case OnDay(day) => Some(day)
    case _ => None
  }

  predicate IsDated(row: RawRow) {
    !row.date.Blank?
  }

  predicate IsUndated(row: RawRow) {
    row.date.Blank?
  }

  /** Rows whose DATE cell is missing are dropped; every other row is kept,
      in order. */
  function DropUndated(rows: seq<RawRow>): seq<RawRow> {
    Filter(IsDated, rows)
  }

  /** The rows kept and the rows dropped account for every input row, and
      no kept row lacks a date. */
  lemma DropUndatedCount(rows: seq<RawRow>)
    ensures |DropUndated(rows)| == |rows| - |Filter(IsUndated, rows)|
    ensures forall i :: 0 <= i < |DropUndated(rows)| ==> !DropUndated(rows)[i].date.Blank?
  {
    FilterSplitsCount(IsDated, IsUndated, rows);
    var kept := DropUndated(rows);
    forall i | 0 <= i < |kept|
      ensures !kept[i].date.Blank?
    {
      assert multiset(kept)[kept[i]] > 0;
    }
  }

  function Cell(row: RawRow, column: Column): Option<string> {
    match column
    case WithdrawalColumn => row.withdrawal
    case DepositColumn => row.deposit
    case BalanceColumn => row.balance
  }

  predicate Parses(row: RawRow, column: Column) {
    Amounts.ParseAmount(Cell(row, column)).Success?
  }

  predicate ColumnParses(rows: seq<RawRow>, column: Column) {
    forall i :: 0 <= i < |rows| ==> Parses(rows[i], column)
  }

  /** `i` is the first row whose `column` cell is not a number. */
  predicate FirstBadRow(rows: seq<RawRow>, column: Column, i: int) {
    && 0 <= i < |rows|
    && !Parses(rows[i], column)
    && forall j :: 0 <= j < i ==> Parses(rows[j], column)
  }

  /** Converts one amount column, top to bottom, failing at the first cell
      that is not a number. */
  function ParseColumn(rows: seq<RawRow>, column: Column): (r: Result<seq<Option<real>>, AmountError>)
    ensures r.Success? <==> ColumnParses(rows, column)
    ensures r.Success? ==> |r.value| == |rows|
    ensures r.Success? ==> forall i :: 0 <= i < |rows| ==>
      r.value[i] == Amounts.ParseAmount(Cell(rows[i], column)).value
    ensures r.Failure? ==> r.error.column == column
    ensures r.Failure? ==> exists i ::
      (FirstBadRow(rows, column, i) && r.error.text == Amounts.ParseAmount(Cell(rows[i], column)).error)
  {
    if |rows| == 0 then Success([])
    else
      match Amounts.ParseAmount(Cell(rows[0], column))
      case Failure(text) =>
        assert FirstBadRow(rows, column, 0);
        Failure(AmountError(column, text))
      case Success(v) =>
        match ParseColumn(rows[1..], column)
        case Failure(e) =>
          var i :| FirstBadRow(rows[1..], column, i) && e.text == Amounts.ParseAmount(Cell(rows[1..][i], column)).error;
          assert FirstBadRow(rows, column, i + 1);
          Failure(e)
        case Success(vs) =>
          assert forall i :: 1 <= i < |rows| ==> rows[i] == rows[1..][i - 1];
          Success([v] + vs)
  }

  /** The row once its cells are converted: missing description and missing
      withdrawal or deposit get their defaults; a missing balance stays
      missing. */
  function Fill(row: RawRow, withdrawal: Option<real>, deposit: Option<real>, balance: Option<real>): Transaction {
    Transaction(
      Coerce(row.date),
      Coerce(row.valueDate),
      row.details.GetOr(Miscellaneous),
      withdrawal.GetOr(0.0),
      deposit.GetOr(0.0),
      balance)
  }

  /** Converts the WITHDRAWAL, DEPOSIT and BALANCE columns in that order and
      fills in the defaults. */
  function Tidy(rows: seq<RawRow>): (r: Result<seq<Transaction>, AmountError>)
    ensures r.Success? <==>
      ColumnParses(rows, WithdrawalColumn) && ColumnParses(rows, DepositColumn) && ColumnParses(rows, BalanceColumn)
    ensures r.Failure? ==> !ColumnParses(rows, r.error.column)
    ensures r.Failure? && r.error.column != WithdrawalColumn ==> ColumnParses(rows, WithdrawalColumn)
    ensures r.Failure? && r.error.column == BalanceColumn ==> ColumnParses(rows, DepositColumn)
    ensures r.Success? ==> |r.value| == |rows| && forall i :: 0 <= i < |rows| ==> Tidied(rows[i], r.value[i])
  {
    var w :- ParseColumn(rows, WithdrawalColumn);
    var d :- ParseColumn(rows, DepositColumn);
    var b :- ParseColumn(rows, BalanceColumn);
    Success(seq(|rows|, i requires 0 <= i < |rows| => Fill(rows[i], w[i], d[i], b[i])))
  }

  /** How a converted row relates to its raw row, cell by cell. */
  predicate Tidied(raw: RawRow, t: Transaction)
    requires Parses(raw, WithdrawalColumn) && Parses(raw, DepositColumn) && Parses(raw, BalanceColumn)
  {
    var w := Amounts.ParseAmount(raw.withdrawal).value;
    var d := Amounts.ParseAmount(raw.deposit).value;
    && t.date == Coerce(raw.date)
    && t.valueDate == Coerce(raw.valueDate)
    && (raw.details.Some? ==> t.details == raw.details.value)
    && (raw.details.None? ==> t.details == Miscellaneous)
    && (w.Some? ==> t.withdrawal == w.value)
    && (w.None? ==> t.withdrawal == 0.0)
    && (d.Some? ==> t.deposit == d.value)
    && (d.None? ==> t.deposit == 0.0)
    && t.balance == Amounts.ParseAmount(raw.balance).value
  }

  /** What a row adds to the balance. */
  function NetOf(t: Transaction): real {
    t.deposit - t.withdrawal
  }

  function DepositOf(t: Transaction): real {
    t.deposit
  }

  function WithdrawalOf(t: Transaction): real {
    t.withdrawal
  }

  /** Balance column replaced by the running total of deposits minus
      withdrawals, starting from `opening`. */
  function Rebalance(rows: seq<Transaction>, opening: real): (r: seq<Transaction>)
    ensures |r| == |rows|
    ensures forall i :: 0 <= i < |rows| ==>
      r[i] == rows[i].(balance := Some(opening + SumOf(rows[..i + 1], NetOf)))
  {
    if |rows| == 0 then []
    else
      var first := opening + NetOf(rows[0]);
      var rest := Rebalance(rows[1..], first);
      forall i | 1 <= i < |rows|
        ensures opening + SumOf(rows[..i + 1], NetOf) == first + SumOf(rows[1..][..i], NetOf)
      {
        assert rows[..i + 1][1..] == rows[1..][..i];
      }
      [rows[0].(balance := Some(first))] + rest
  }

  /** Day order with the unreadable dates after every real one. */
  predicate DateLe(a: Option<int>, b: Option<int>) {
    match (a, b)
    case (Some(x), Some(y)) => x <= y
    case (Some(_), None) => true
    case (None, Some(_)) => false
    case (None, None) => true
  }

  predicate ByDate(a: Transaction, b: Transaction) {
    DateLe(a.date, b.date)
  }

  lemma ByDateIsTotalPreorder()
    ensures TotalPreorder(ByDate)
  {
  }

  /** The balance of a row, as an amount (`0.0` when it has none). */
  function BalanceOf(t: Transaction): real {
    t.balance.GetOr(0.0)
  }

  /** A row with its balance forgotten. */
  function Unbalanced(t: Transaction): Transaction {
    t.(balance := None)
  }

  /** `out` is a finished ledger for the converted rows `rows`: the same rows
      apart from balances, ordered by date with unreadable dates last, and
      every balance the running total up to and including its row. */
  ghost predicate IsLedger(out: seq<Transaction>, rows: seq<Transaction>) {
    && multiset(Map(Unbalanced, out)) == multiset(Map(Unbalanced, rows))
    && Sorted(out, ByDate)
    && (forall i :: 0 <= i < |out| ==> out[i].balance == Some(SumOf(out[..i + 1], NetOf)))
  }

  /** Every balance after recomputation is the running total of the
      recomputed rows themselves. */
  lemma RebalanceRunningTotal(rows: seq<Transaction>)
    ensures var out := Rebalance(rows, 0.0);
      forall i :: 0 <= i < |out| ==> out[i].balance == Some(SumOf(out[..i + 1], NetOf))
  {
    var out := Rebalance(rows, 0.0);
    forall i | 0 <= i < |out|
      ensures out[i].balance == Some(SumOf(out[..i + 1], NetOf))
    {
      SumOfSameMeasure(out[..i + 1], rows[..i + 1], NetOf);
    }
  }

  /** Recomputing balances changes nothing but the balances. */
  lemma RebalanceKeepsRows(rows: seq<Transaction>, opening: real)
    ensures Map(Unbalanced, Rebalance(rows, opening)) == Map(Unbalanced, rows)
  {
  }

  lemma RebalanceKeepsOrder(rows: seq<Transaction>, opening: real)
    requires Sorted(rows, ByDate)
    ensures Sorted(Rebalance(rows, opening), ByDate)
  {
  }

  /** Only the dated rows' cells decide whether a column converts. */
  lemma DroppedRowsIrrelevant(raw: seq<RawRow>, column: Column)
    ensures ColumnParses(DropUndated(raw), column) <==>
      forall i :: 0 <= i < |raw| && IsDated(raw[i]) ==> Parses(raw[i], column)
  {
    var kept := DropUndated(raw);
    if ColumnParses(kept, column) {
      forall i | 0 <= i < |raw| && IsDated(raw[i])
        ensures Parses(raw[i], column)
      {
        assert multiset(raw)[raw[i]] > 0;
        assert raw[i] in multiset(kept);
      }
    }
    if forall i :: 0 <= i < |raw| && IsDated(raw[i]) ==> Parses(raw[i], column) {
      forall i | 0 <= i < |kept|
        ensures Parses(kept[i], column)
      {
        assert kept[i] in multiset(kept);
        assert kept[i] in multiset(raw);
      }
    }
  }

  /** Orders converted rows by date and recomputes their balances from zero. */
  function Arrange(rows: seq<Transaction>): (out: seq<Transaction>)
    ensures IsLedger(out, rows)
    ensures |out| == |rows|
  {
    ByDateIsTotalPreorder();
    var sorted := SortBy(rows, ByDate);
    RebalanceKeepsRows(sorted, 0.0);
    RebalanceKeepsOrder(sorted, 0.0);
    RebalanceRunningTotal(sorted);
    MapPermutation(Unbalanced, sorted, rows);
    Rebalance(sorted, 0.0)
  }

  /** The whole clean-up. It fails exactly when some dated row has an amount
      cell that is not a number, and then reports the first such cell of the
      first such column. */
  function Normalize(raw: seq<RawRow>): (r: Result<seq<Transaction>, AmountError>)
    ensures r.Success? <==> forall i :: 0 <= i < |raw| && IsDated(raw[i]) ==>
      Parses(raw[i], WithdrawalColumn) && Parses(raw[i], DepositColumn) && Parses(raw[i], BalanceColumn)
    ensures r.Success? ==> Tidy(DropUndated(raw)).Success? && IsLedger(r.value, Tidy(DropUndated(raw)).value)
    ensures r.Success? ==> |r.value| == |DropUndated(raw)|
    ensures r.Failure? ==> Tidy(DropUndated(raw)).Failure? && r.error == Tidy(DropUndated(raw)).error
  {
    DroppedRowsIrrelevant(raw, WithdrawalColumn);
    DroppedRowsIrrelevant(raw, DepositColumn);
    DroppedRowsIrrelevant(raw, BalanceColumn);
    var rows :- Tidy(DropUndated(raw));
    Success(Arrange(rows))
  }

  /** In a date-ordered ledger, once a row has no readable date no later
      row has one. */
  lemma UndatedLast(out: seq<Transaction>, i: int, j: int)
    requires Sorted(out, ByDate)
    requires 0 <= i < j < |out| && out[i].date.None?
    ensures out[j].date.None?
  {
    assert ByDate(out[i], out[j]);
  }

  lemma {:induction false} SumOfNet(rows: seq<Transaction>)
    ensures SumOf(rows, NetOf) == SumOf(rows, DepositOf) - SumOf(rows, WithdrawalOf)
    decreases |rows|
  {
    if |rows| > 0 {
      SumOfNet(rows[1..]);
    }
  }

  /** The closing balance of a ledger is total deposits minus total
      withdrawals, whatever order rows with the same date ended up in. */
  lemma ClosingBalance(out: seq<Transaction>, rows: seq<Transaction>)
    requires IsLedger(out, rows)
    requires |out| > 0
    ensures out[|out| - 1].balance == Some(SumOf(rows, DepositOf) - SumOf(rows, WithdrawalOf))
  {
    assert out[..|out|] == out;
    SumOfSameMeasure(out, Map(Unbalanced, out), NetOf);
    SumOfPermutation(Map(Unbalanced, out), Map(Unbalanced, rows), NetOf);
    SumOfSameMeasure(rows, Map(Unbalanced, rows), NetOf);
    SumOfNet(rows);
  }
}
