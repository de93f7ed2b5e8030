/** The per-day history log: a header row written when the log file is
    first created, then one row per saved entry, appended. The file is
    modelled as its sequence of rows, `None` while it does not exist. */
module Journal {
  import opened Wrappers

  /** One column of a written row: the field name and the text written. */
  datatype Cell = Cell(key: string, value: string)

  /** A row, as the mapping handed to the CSV writer, in key order. */
  type Row = seq<Cell>

  /** The entry recorded for a successful prediction: the image's file name,
      the predicted LaTeX (the entry's label), and the temperature used. The datastore's
      conversion of an entry to a row is not part of this model and is a
      parameter `toDict` below. */
  datatype SnipEntry = SnipEntry(path: string, latex: string, temperature: real)

  function Keys(row: Row): (ks: seq<string>)
    ensures |ks| == |row| && forall i :: 0 <= i < |row| ==> ks[i] == row[i].key
  {
    seq(|row|, i requires 0 <= i < |row| => row[i].key)
  }

  /** The header row: every key of the entry's row mapped to itself. */
  function Header(row: Row): (h: Row)
    ensures Keys(h) == Keys(row)
    ensures forall i :: 0 <= i < |h| ==> h[i].value == row[i].key
  {
    seq(|row|, i requires 0 <= i < |row| => Cell(row[i].key, row[i].key))
  }

  /** The rows of a list of entries, in order. */
  function Rows(es: seq<SnipEntry>, toDict: SnipEntry -> Row): (rs: seq<Row>)
    ensures |rs| == |es| && forall i :: 0 <= i < |es| ==> rs[i] == toDict(es[i])
  {
    if |es| == 0 then [] else [toDict(es[0])] + Rows(es[1..], toDict)
  }

  /** Saving the history: the last entry's row is written, preceded by the
      header built from that row when the file does not exist yet. Earlier
      rows are never touched. Indexing the last entry of an empty history
      fails in the source, hence the precondition. */
  function SaveHistory(log: Option<seq<Row>>, history: seq<SnipEntry>, toDict: SnipEntry -> Row): (r: Option<seq<Row>>)
    requires |history| > 0
    ensures r.Some?
    ensures var row := toDict(history[|history| - 1]);
      && (log.None? ==> r.value == [Header(row), row])
      && (log.Some? ==> |r.value| == |log.value| + 1
                        && r.value[..|log.value|] == log.value
                        && r.value[|log.value|] == row)
  {
    var row := toDict(history[|history| - 1]);
    match log
    case None => Some([Header(row), row])
    case Some(rows) => Some(rows + [row])
  }

  /** Appending an entry to the in-memory history, then saving it. */
  function UpdateHistory(history: seq<SnipEntry>, log: Option<seq<Row>>, entry: SnipEntry,
                         toDict: SnipEntry -> Row): (r: (seq<SnipEntry>, Option<seq<Row>>))
    ensures |r.0| == |history| + 1 && r.0[..|history|] == history && r.0[|history|] == entry
    ensures r.1.Some?
    ensures log.None? ==> r.1.value == [Header(toDict(entry)), toDict(entry)]
    ensures log.Some? ==> r.1.value == log.value + [toDict(entry)]
  {
    var h := history + [entry];
    (h, SaveHistory(log, h, toDict))
  }

  /** A log is well formed when it is absent or starts with a header row. */
  predicate WellFormed(log: Option<seq<Row>>) {
    log.None? || |log.value| >= 1
  }

  /** The number of entry rows: every row after the header. */
  function EntryCount(log: Option<seq<Row>>): nat
    requires WellFormed(log)
  {
    if log.None? then 0 else |log.value| - 1
  }

  /** Each save adds exactly one entry row to a well-formed log. */
  lemma SaveAddsOneEntry(log: Option<seq<Row>>, history: seq<SnipEntry>, toDict: SnipEntry -> Row)
    requires |history| > 0 && WellFormed(log)
    ensures WellFormed(SaveHistory(log, history, toDict))
    ensures EntryCount(SaveHistory(log, history, toDict)) == EntryCount(log) + 1
  {
  }

  /** Updating the history once per entry, in order. */
  function UpdateAll(history: seq<SnipEntry>, log: Option<seq<Row>>, es: seq<SnipEntry>,
                     toDict: SnipEntry -> Row): (seq<SnipEntry>, Option<seq<Row>>)
    decreases |es|
  {
    if |es| == 0 then (history, log)
    else
      var step := UpdateHistory(history, log, es[0], toDict);
      UpdateAll(step.0, step.1, es[1..], toDict)
  }

  /** On an existing log, N updates append the N entries' rows after the
      untouched earlier rows, and the history grows by the N entries. */
  lemma {:induction false} UpdateAllAppends(history: seq<SnipEntry>, rows: seq<Row>, es: seq<SnipEntry>,
                                            toDict: SnipEntry -> Row)
    ensures UpdateAll(history, Some(rows), es, toDict) == (history + es, Some(rows + Rows(es, toDict)))
    decreases |es|
  {
    if |es| > 0 {
      var row := toDict(es[0]);
      var step := UpdateHistory(history, Some(rows), es[0], toDict);
      assert step == (history + [es[0]], Some(rows + [row]));
      calc {
        UpdateAll(history, Some(rows), es, toDict);
        UpdateAll(history + [es[0]], Some(rows + [row]), es[1..], toDict);
        { UpdateAllAppends(history + [es[0]], rows + [row], es[1..], toDict); }
        (history + [es[0]] + es[1..], Some(rows + [row] + Rows(es[1..], toDict)));
        { AppendHead(history, es); AppendHead(rows, Rows(es, toDict)); }
        (history + es, Some(rows + Rows(es, toDict)));
      }
    } else {
      assert history + es == history;
      assert rows + Rows(es, toDict) == rows;
    }
  }

  lemma AppendHead<T>(a: seq<T>, b: seq<T>)
    requires |b| > 0
    ensures a + [b[0]] + b[1..] == a + b
  {
    assert [b[0]] + b[1..] == b;
  }

  /** Starting from an absent file, N >= 1 updates give N + 1 rows: the
      header built from the first entry, followed by the entries' rows in
      order, so the header is written exactly once. */
  lemma UpdateAllFromAbsent(es: seq<SnipEntry>, toDict: SnipEntry -> Row)
    requires |es| > 0
    ensures UpdateAll([], None, es, toDict).0 == es
    ensures UpdateAll([], None, es, toDict).1 == Some([Header(toDict(es[0]))] + Rows(es, toDict))
    ensures |UpdateAll([], None, es, toDict).1.value| == |es| + 1
  {
    var row := toDict(es[0]);
    var step := UpdateHistory([], None, es[0], toDict);
    assert [] + [es[0]] == [es[0]];
    assert [Header(row), row] == [Header(row)] + [row];
    assert step == ([es[0]], Some([Header(row)] + [row]));
    calc {
      UpdateAll([], None, es, toDict);
      UpdateAll([es[0]], Some([Header(row)] + [row]), es[1..], toDict);
      { UpdateAllAppends([es[0]], [Header(row)] + [row], es[1..], toDict); }
      ([es[0]] + es[1..], Some([Header(row)] + [row] + Rows(es[1..], toDict)));
      { assert [es[0]] + es[1..] == es; AppendHead([Header(row)], Rows(es, toDict)); }
      (es, Some([Header(row)] + Rows(es, toDict)));
    }
  }
}
