/** Rows of a delimited table as the scripts see them (a Python `dict` from
    `csv.DictReader`, or a PapaParse record), and the lines `csv.DictWriter`
    produces from them. Quoting and delimiters are below this model: a line
    is the sequence of its field values. */
module Table {
  import opened Wrappers

  datatype Cell = Cell(key: string, value: string)

  /** A row: its cells in key-insertion order, as a Python `dict` keeps them. */
  type Row = seq<Cell>

  function Keys(r: Row): (ks: seq<string>)
    ensures |ks| == |r|
    ensures forall i {:trigger ks[i]} :: 0 <= i < |r| ==> ks[i] == r[i].key
  {
    if |r| == 0 then [] else [r[0].key] + Keys(r[1..])
  }

  /** `row.get(k)`: the value stored under `k`, if `k` is a key. */
  function Get(r: Row, k: string): (v: Option<string>)
    ensures v.Some? <==> k in Keys(r)
  {
    if |r| == 0 then None
    else if r[0].key == k then Some(r[0].value)
    else Get(r[1..], k)
  }

  /** The column every script keys its rows by. */
  const NameColumn := "Item Name"

  /** The name a row is looked up by: `item.get("Item Name", "Unknown")`. */
  function RowName(row: Row): string {
    Get(row, NameColumn).GetOr("Unknown")
  }

  /** Looking up a key in a row that starts with a given cell. */
  lemma {:induction false} GetCons(c: Cell, r: Row, k: string)
    ensures Get([c] + r, k) == if c.key == k then Some(c.value) else Get(r, k)
  {
    assert ([c] + r)[1..] == r;
  }

  /** The value under a key is that of the first cell carrying it. */
  lemma {:induction false} GetFirst(r: Row, i: nat)
    requires i < |r|
    requires forall j :: 0 <= j < i ==> r[j].key != r[i].key
    ensures Get(r, r[i].key) == Some(r[i].value)
  {
    if i > 0 {
      assert r[1..][i - 1] == r[i];
      assert forall j :: 0 <= j < i - 1 ==> r[1..][j] == r[j + 1];
      GetFirst(r[1..], i - 1);
    }
  }

  /** `row[k] = v`: the cell under `k` is overwritten where it stands, or a
      new cell is appended when `k` is not yet a key. */
  function Set(r: Row, k: string, v: string): (r': Row)
    ensures Get(r', k) == Some(v)
    ensures Keys(r') == if k in Keys(r) then Keys(r) else Keys(r) + [k]
  {
    if |r| == 0 then [Cell(k, v)]
    else if r[0].key == k then
      var r' := [Cell(k, v)] + r[1..];
      assert r'[1..] == r[1..];
      assert Keys(r') == Keys(r) by { assert Keys(r') == [k] + Keys(r[1..]); }
      r'
    else
      var rest := Set(r[1..], k, v);
      var r' := [r[0]] + rest;
      assert Get(r', k) == Some(v) by { GetCons(r[0], rest, k); }
      assert Keys(r') == if k in Keys(r) then Keys(r) else Keys(r) + [k] by {
        assert r'[1..] == rest;
        assert Keys(r') == [r[0].key] + Keys(rest);
        assert Keys(r) == [r[0].key] + Keys(r[1..]);
        assert [r[0].key] + (Keys(r[1..]) + [k]) == ([r[0].key] + Keys(r[1..])) + [k];
      }
      r'
  }

  /** Setting one key leaves the value under every other key as it was. */
  lemma {:induction false} SetKeepsOthers(r: Row, k: string, v: string, c: string)
    requires c != k
    ensures Get(Set(r, k, v), c) == Get(r, c)
  {
    if |r| > 0 {
      assert r == [r[0]] + r[1..];
      GetCons(r[0], r[1..], c);
      if r[0].key == k {
        GetCons(Cell(k, v), r[1..], c);
      } else {
        SetKeepsOthers(r[1..], k, v, c);
        GetCons(r[0], Set(r[1..], k, v), c);
      }
    }
  }

  /** The row without its cells under the keys in `ks`. */
  function Without(r: Row, ks: set<string>): Row
  {
    if |r| == 0 then [] else (if r[0].key in ks then [] else [r[0]]) + Without(r[1..], ks)
  }

  /** Removing other keys does not change what is stored under `c`. */
  lemma {:induction false} GetWithout(r: Row, ks: set<string>, c: string)
    requires c !in ks
    ensures Get(Without(r, ks), c) == Get(r, c)
  {
    if |r| > 0 {
      GetWithout(r[1..], ks, c);
      if r[0].key !in ks {
        GetCons(r[0], Without(r[1..], ks), c);
      } else {
        assert Without(r, ks) == Without(r[1..], ks);
      }
    }
  }

  /** Setting a removed key is invisible once it is removed. */
  lemma {:induction false} WithoutSet(r: Row, k: string, v: string, ks: set<string>)
    requires k in ks
    ensures Without(Set(r, k, v), ks) == Without(r, ks)
  {
    if |r| > 0 && r[0].key != k {
      WithoutSet(r[1..], k, v, ks);
      assert Set(r, k, v)[1..] == Set(r[1..], k, v);
    } else if |r| > 0 {
      assert Set(r, k, v)[1..] == r[1..];
    }
  }

  /** `csv.DictWriter` turning a row into the fields of one output line, with
      the default `restval` of "" for a fieldname the row lacks. Keys that
      are not fieldnames do not reach the line. */
  function Project(r: Row, fieldnames: seq<string>): (fields: seq<string>)
    ensures |fields| == |fieldnames|
    ensures forall i {:trigger fields[i]} :: 0 <= i < |fieldnames| ==> fields[i] == Get(r, fieldnames[i]).GetOr("")
  {
    seq(|fieldnames|, i requires 0 <= i < |fieldnames| => Get(r, fieldnames[i]).GetOr(""))
  }

  /** One line of an output file: the header written by `writeheader()`, or a row. */
  datatype Line = HeaderLine(fields: seq<string>) | RecordLine(fields: seq<string>)

  /** The lines `writerows(rows)` appends. */
  function Records(rows: seq<Row>, fieldnames: seq<string>): (lines: seq<Line>)
    ensures |lines| == |rows|
    ensures forall i {:trigger lines[i]} :: 0 <= i < |rows| ==> lines[i] == RecordLine(Project(rows[i], fieldnames))
  {
    seq(|rows|, i requires 0 <= i < |rows| => RecordLine(Project(rows[i], fieldnames)))
  }

  /** How many header lines a file holds. */
  function HeaderCount(file: seq<Line>): nat
  {
    if |file| == 0 then 0
    else (if file[0].HeaderLine? then 1 else 0) + HeaderCount(file[1..])
  }

  lemma {:induction false} HeaderCountAppend(a: seq<Line>, b: seq<Line>)
    ensures HeaderCount(a + b) == HeaderCount(a) + HeaderCount(b)
  {
    if |a| == 0 {
      assert a + b == b;
    } else {
      assert (a + b)[1..] == a[1..] + b;
      HeaderCountAppend(a[1..], b);
    }
  }

  /** Lines written by `writerows` are never headers. */
  lemma {:induction false} HeaderCountRecords(rows: seq<Row>, fieldnames: seq<string>)
    ensures HeaderCount(Records(rows, fieldnames)) == 0
  {
    if |rows| > 0 {
      assert Records(rows, fieldnames)[1..] == Records(rows[1..], fieldnames);
      HeaderCountRecords(rows[1..], fieldnames);
    }
  }
}
