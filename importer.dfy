/**
 * The CSV importer's row loop (services/importer.py). The file is given already
 * split into rows of fields: None stands for a file that cannot be opened.
 */
module Importer {
  import opened Wrappers
  import opened Transactions
  import opened Parsing

  /** The fields of a transaction built from one row (its category is always ''). */
  datatype Record = Record(date: Date, merchant: string, amount: real, raw: seq<string>)

  /** One data row: exactly three fields, a date and an amount that parse; None where the row is skipped. */
  function ParseRow(row: seq<string>): Option<Record> {
    if |row| != 3 then None
    else
      match ParseDate(row[0])
      case None => None
      case Some(date) =>
        match ParseAmount(row[2])
        case None => None
        case Some(amount) => Some(Record(date, row[1], amount, row))
  }

  /** The records of the data rows that parse, in row order. */
  function ParseRows(rows: seq<seq<string>>): seq<Record> {
    if rows == [] then []
    else
      var parsed := ParseRows(rows[..|rows| - 1]);
      match ParseRow(rows[|rows| - 1])
      case Some(r) => parsed + [r]
      case None => parsed
  }

  /** What `import_transactions` yields: nothing for an unreadable or empty file, else the parsed rows after the header. */
  function Imported(file: Option<seq<seq<string>>>): seq<Record> {
    match file
    case None => []
    case Some(rows) => if rows == [] then [] else ParseRows(rows[1..])
  }

  /** Transaction `t` carries record `r`'s fields and an empty category. */
  predicate Describes(t: Transaction, r: Record)
    reads t
  {
    t.date == r.date && t.merchant == r.merchant && t.amount == r.amount && t.raw == r.raw && t.category == ""
  }

  /**
   * `import_transactions`: the header row is consumed; every later row with three
   * fields, a valid date and a valid amount becomes a new transaction with category
   * '' and raw set to the row; every other row is skipped and the loop goes on.
   */
  method ImportTransactions(file: Option<seq<seq<string>>>) returns (ts: seq<Transaction>)
    ensures |ts| == |Imported(file)|
    ensures forall i | 0 <= i < |ts| :: Describes(ts[i], Imported(file)[i])
    ensures forall i | 0 <= i < |ts| :: fresh(ts[i])
    ensures forall i, j | 0 <= i < j < |ts| :: ts[i] != ts[j]
  {
    ts := [];
    if file.None? {
      return;  // FileNotFoundError: reported, nothing imported
    }
    var rows := file.value;
    if rows == [] {
      return;  // next(reader) raises StopIteration: caught, nothing imported
    }
    var data := rows[1..];
    for n := 0 to |data|
      invariant |ts| == |ParseRows(data[..n])|
      invariant forall i | 0 <= i < |ts| :: Describes(ts[i], ParseRows(data[..n])[i])
      invariant forall i | 0 <= i < |ts| :: fresh(ts[i])
      invariant forall i, j | 0 <= i < j < |ts| :: ts[i] != ts[j]
    {
      ParseRowsSnoc(data, n);
      var row := data[n];
      if |row| != 3 {
        continue;
      }
      var date := ParseDate(row[0]);
      if date.None? {
        continue;
      }
      var amount := ParseAmount(row[2]);
      if amount.None? {
        continue;
      }
      var t := new Transaction(date.value, row[1], amount.value, "", row);
      ts := ts + [t];
    }
    assert data[..|data|] == data;
  }

  // ---------------------------------------------------------------------------
  // Properties of the importer.
  // ---------------------------------------------------------------------------

  /** One more row adds that row's record, or nothing when the row is skipped. */
  lemma ParseRowsSnoc(rows: seq<seq<string>>, n: nat)
    requires n < |rows|
    ensures ParseRows(rows[..n + 1]) == ParseRows(rows[..n]) + (if ParseRow(rows[n]).Some? then [ParseRow(rows[n]).value] else [])
  {
    assert rows[..n + 1][..n] == rows[..n];
  }

  /** Parsing distributes over concatenation of row lists: each row is handled on its own. */
  lemma {:induction false} ParseRowsAppend(a: seq<seq<string>>, b: seq<seq<string>>)
    ensures ParseRows(a + b) == ParseRows(a) + ParseRows(b)
    decreases |b|
  {
    if b == [] {
      assert a + b == a;
    } else {
      var b' := b[..|b| - 1];
      ParseRowsAppend(a, b');
      assert (a + b)[..|a + b| - 1] == a + b';
    }
  }

  /** A bad row is skipped and the rows after it are still imported. */
  lemma SkipBadRow(before: seq<seq<string>>, row: seq<string>, after: seq<seq<string>>)
    requires ParseRow(row).None?
    ensures ParseRows(before + [row] + after) == ParseRows(before) + ParseRows(after)
  {
    ParseRowsAppend(before + [row], after);
    ParseRowsAppend(before, [row]);
    assert [row][..0] == [];
  }

  /** At most one record per data row. */
  lemma {:induction false} ParseRowsBound(rows: seq<seq<string>>)
    ensures |ParseRows(rows)| <= |rows|
  {
    if rows != [] {
      ParseRowsBound(rows[..|rows| - 1]);
    }
  }

  /** Which rows parse. */
  function ParsedFlags(rows: seq<seq<string>>): (f: seq<bool>)
    ensures |f| == |rows|
    ensures forall i | 0 <= i < |rows| :: f[i] == ParseRow(rows[i]).Some?
  {
    seq(|rows|, i requires 0 <= i < |rows| => ParseRow(rows[i]).Some?)
  }

  /** The positions whose flag is set, in increasing order. */
  function Positions(f: seq<bool>): (ps: seq<nat>)
    ensures forall k | 0 <= k < |ps| :: ps[k] < |f| && f[ps[k]]
    ensures forall k, l | 0 <= k < l < |ps| :: ps[k] < ps[l]
    ensures forall i | 0 <= i < |f| && f[i] :: i in ps
  {
    if f == [] then []
    else
      var last := |f| - 1;
      var ps := Positions(f[..last]);
      if f[last] then
        var r := ps + [last];
        assert forall k | 0 <= k < |ps| :: r[k] == ps[k];
        r
      else
        ps
  }

  /**
   * The import is an order-preserving image of the rows that parse: record k comes
   * from the k-th parsing row, and every parsing row gives a record.
   */
  lemma {:induction false} ParseRowsAreParsedRows(rows: seq<seq<string>>)
    ensures |ParseRows(rows)| == |Positions(ParsedFlags(rows))|
    ensures forall k | 0 <= k < |ParseRows(rows)| :: ParseRow(rows[Positions(ParsedFlags(rows))[k]]) == Some(ParseRows(rows)[k])
  {
    if rows != [] {
      var init := rows[..|rows| - 1];
      ParseRowsAreParsedRows(init);
      assert ParsedFlags(rows)[..|init|] == ParsedFlags(init);
      assert forall i | 0 <= i < |init| :: init[i] == rows[i];
    }
  }

  /** Every imported record keeps its row verbatim: three fields, the second being the merchant, the others parsing to date and amount. */
  lemma {:induction false} ParseRowsFields(rows: seq<seq<string>>)
    ensures forall k | 0 <= k < |ParseRows(rows)| ::
      var r := ParseRows(rows)[k];
      |r.raw| == 3 && r.merchant == r.raw[1] && ParseDate(r.raw[0]) == Some(r.date) && ParseAmount(r.raw[2]) == Some(r.amount)
  {
    if rows != [] {
      ParseRowsFields(rows[..|rows| - 1]);
    }
  }

  /** The first row is the header: whatever it holds, it never becomes a transaction. */
  lemma HeaderIsSkipped(header: seq<string>, data: seq<seq<string>>)
    ensures Imported(Some([header] + data)) == ParseRows(data)
    ensures Imported(Some([header])) == []
  {
    assert ([header] + data)[1..] == data;
  }

  /** A file that cannot be opened, and a file without even a header, both import nothing. */
  lemma UnreadableOrEmptyImportsNothing()
    ensures Imported(None) == []
    ensures Imported(Some([])) == []
  {
  }

  /** The import never yields more transactions than there are data rows. */
  lemma ImportedBound(rows: seq<seq<string>>)
    requires rows != []
    ensures |Imported(Some(rows))| <= |rows| - 1
  {
    ParseRowsBound(rows[1..]);
  }

  /** A row whose first field does not start with four digits is skipped. */
  lemma UndatedRowSkipped(row: seq<string>)
    requires |row| == 3 && |row[0]| >= 1 && !IsDigit(row[0][0])
    ensures ParseRow(row).None?
  {
    assert |row[0]| >= 8 ==> !AllDigits(row[0][..4]) by {
      if |row[0]| >= 8 { assert row[0][..4][0] == row[0][0]; }
    }
  }

  /**
   * A header, a row as the program writes it, and a row whose date reads
   * "not-a-date": only the written row is imported, with its fields verbatim.
   */
  lemma ImportExample(header: seq<string>, merchant: string)
    ensures var good := [IsoText(Date(2024, 1, 5)), merchant, CentsText(-1250)];
      Imported(Some([header, good, ["not-a-date", merchant, "1"]])) == [Record(Date(2024, 1, 5), merchant, -12.5, good)]
  {
    var good := [IsoText(Date(2024, 1, 5)), merchant, CentsText(-1250)];
    var bad := ["not-a-date", merchant, "1"];
    ParseIsoText(Date(2024, 1, 5));
    ParseCentsText(-1250);
    assert ParseRow(good) == Some(Record(Date(2024, 1, 5), merchant, -12.5, good));
    UndatedRowSkipped(bad);
    HeaderIsSkipped(header, [good, bad]);
    SkipBadRow([good], bad, []);
    assert [good] == [] + [good];
    ParseRowsSnoc([good], 0);
    assert [good] + [bad] + [] == [good, bad];
  }
}
