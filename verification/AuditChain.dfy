/** The per-organisation audit hash chain: appending, batched verification, and what an
    intact report says about the rows that remain. */
module AuditChain {
  import opened Options

  /** One audit entry's hashed fields. */
  datatype Entry = Entry(org: string, id: string, fields: seq<string>, targetId: Option<string>, createdAt: int)

  /** Hash texts. The digest is collision-free: different material, different text. */
  datatype Hash = Blank | Digest(material: Material) | Stray(text: string)

  datatype Material = Material(seq_: int, prev: Hash, entry: Entry)

  /** A missing previous hash is hashed as the empty text. */
  function OrBlank(prev: Option<Hash>): Hash {
    if prev.Some? then prev.value else Blank
  }

  function ChainHash(prev: Option<Hash>, number: int, entry: Entry): Hash {
    Digest(Material(number, OrBlank(prev), entry))
  }

  /** A chained row. `number` is its chain sequence number. */
  datatype Row = Row(number: int, prev: Option<Hash>, hash: Hash, entry: Entry)

  const VERIFY_BATCH: nat := 1000

  // ----- the honest chain -----

  /** The head hash after the first `n` entries were appended. */
  function Head(entries: seq<Entry>, n: nat): Option<Hash>
    requires n <= |entries|
  {
    if n == 0 then None else Some(ChainHash(Head(entries, n - 1), n, entries[n - 1]))
  }

  /** The row that appending the entry with number `n` writes. */
  function HonestRow(entries: seq<Entry>, n: nat): Row
    requires 1 <= n <= |entries|
  {
    Row(n, Head(entries, n - 1), Head(entries, n).value, entries[n - 1])
  }

  lemma {:induction false} HeadOfPrefix(entries: seq<Entry>, more: seq<Entry>, n: nat)
    requires n <= |entries|
    ensures Head(entries + more, n) == Head(entries, n)
  {
    if n > 0 { HeadOfPrefix(entries, more, n - 1); }
  }

  /** An organisation's chain columns and audit rows. */
  class Chain {
    var number: nat
    var head: Option<Hash>
    var rows: seq<Row>
    ghost var entries: seq<Entry>

    /** The columns are those of the entries appended, and the rows are the honest ones not yet purged. */
    ghost predicate Valid()
      reads this
    {
      number == |entries| && head == Head(entries, number) && |rows| <= number
      && forall i :: 0 <= i < |rows| ==> rows[i] == HonestRow(entries, number - |rows| + i + 1)
    }

    constructor ()
      ensures Valid() && entries == [] && rows == []
    {
      number, head, rows, entries := 0, None, [], [];
    }

    /** `insert_chained`: bumps the sequence, hashes onto the head, inserts, and moves the head. */
    method Append(entry: Entry)
      requires Valid()
      modifies this
      ensures Valid() && entries == old(entries) + [entry]
      ensures rows == old(rows) + [HonestRow(entries, |entries|)]
    {
      number := number + 1;
      var prev := head;
      var hash := ChainHash(prev, number, entry);
      rows := rows + [Row(number, prev, hash, entry)];
      head := Some(hash);
      entries := entries + [entry];
      forall n: nat | n <= |old(entries)| ensures Head(entries, n) == Head(old(entries), n) {
        HeadOfPrefix(old(entries), [entry], n);
      }
      forall i | 0 <= i < |rows| ensures rows[i] == HonestRow(entries, number - |rows| + i + 1) {
        if i < |old(rows)| { assert rows[i] == old(rows)[i]; }
      }
    }

    /** Retention drops the oldest rows. */
    method DropOldest(count: nat)
      requires Valid() && count <= |rows|
      modifies this`rows
      ensures Valid() && rows == old(rows)[count..]
    {
      rows := rows[count..];
    }
  }

  // ----- verification -----

  predicate Ascending(rows: seq<Row>) {
    forall i, j :: 0 <= i < j < |rows| ==> rows[i].number < rows[j].number
  }

  /** The rows with a larger number, in order. */
  function After(rows: seq<Row>, after: int): seq<Row> {
    if rows == [] then []
    else if rows[0].number > after then rows
    else After(rows[1..], after)
  }

  function Page(rows: seq<Row>, after: int, limit: nat): seq<Row> {
    var all := After(rows, after);
    if |all| <= limit then all else all[..limit]
  }

  predicate HashMatches(r: Row) {
    ChainHash(r.prev, r.number, r.entry) == r.hash
  }

  predicate Links(before: Row, r: Row) {
    r.number == before.number + 1 && r.prev == Some(before.hash)
  }

  /** Every row matches its hash and links to the one before it. */
  ghost predicate Sound(rows: seq<Row>) {
    (forall i :: 0 <= i < |rows| ==> HashMatches(rows[i]))
    && forall i :: 0 < i < |rows| ==> Links(rows[i - 1], rows[i])
  }

  /** What an intact report means: the rows are sound and the newest is the organisation head. */
  ghost predicate Intact(rows: seq<Row>, headNumber: int, head: Option<Hash>) {
    Sound(rows)
    && (rows != [] ==> rows[|rows| - 1].number == headNumber && head == Some(rows[|rows| - 1].hash))
  }

  datatype Report = Report(intact: bool, chained: nat, first: Option<int>, last: Option<int>)

  /** `verify_chain` over a snapshot whose rows are in order of their distinct numbers. */
  method VerifyChain(rows: seq<Row>, headNumber: int, head: Option<Hash>) returns (r: Report)
    requires Ascending(rows)
    ensures var seen := After(rows, -1);
            r.intact == Intact(seen, headNumber, head) && r.chained == |seen|
            && r.first == (if seen == [] then None else Some(seen[0].number))
            && r.last == (if seen == [] then None else Some(seen[|seen| - 1].number))
  {
    ghost var seen := After(rows, -1);
    var scan := Scan(0, 0, None, None);
    while true
      invariant ScanOk(seen, scan)
      decreases |seen| - scan.chained
    {
      var after := if scan.previous.None? then -1 else scan.previous.value.number;
      var page := Page(rows, after, VERIFY_BATCH);
      PageIsNext(rows, scan.chained, VERIFY_BATCH);
      if page == [] {
        break;
      }
      scan := CheckPage(seen, page, scan);
    }
    assert seen[..scan.chained] == seen;
    var problems := scan.problems;
    if scan.previous.Some? && (scan.previous.value.number != headNumber || head != Some(scan.previous.value.hash)) {
      problems := problems + 1;
    }
    r := Report(problems == 0, scan.chained, scan.first,
                if scan.previous.Some? then Some(scan.previous.value.number) else None);
  }

  /** The running state of a verification. */
  datatype Scan = Scan(problems: nat, chained: nat, first: Option<int>, previous: Option<Row>)

  /** After the first `chained` rows, no problem was found exactly when they are sound. */
  ghost predicate ScanOk(seen: seq<Row>, scan: Scan) {
    scan.chained <= |seen| && (scan.problems == 0 <==> Sound(seen[..scan.chained]))
    && scan.previous == (if scan.chained == 0 then None else Some(seen[scan.chained - 1]))
    && scan.first == (if scan.chained == 0 then None else Some(seen[0].number))
  }

  method CheckPage(ghost seen: seq<Row>, page: seq<Row>, before: Scan) returns (scan: Scan)
    requires ScanOk(seen, before)
    requires before.chained + |page| <= |seen| && page == seen[before.chained..before.chained + |page|]
    ensures ScanOk(seen, scan) && scan.chained == before.chained + |page|
  {
    scan := before;
    for i := 0 to |page|
      invariant ScanOk(seen, scan) && scan.chained == before.chained + i
    {
      var row := page[i];
      assert row == seen[scan.chained];
      SoundExtends(seen, scan.chained);
      var found := CheckRow(scan.previous, row);
      scan := Scan(scan.problems + found, scan.chained + 1,
                   if scan.previous.None? then Some(row.number) else scan.first, Some(row));
    }
  }

  /** How many problems one row adds to the report. */
  method CheckRow(previous: Option<Row>, row: Row) returns (found: nat)
    ensures found == 0 <==> HashMatches(row) && (previous.Some? ==> Links(previous.value, row))
  {
    found := 0;
    if ChainHash(row.prev, row.number, row.entry) != row.hash {
      found := found + 1;
    }
    if previous.Some? {
      if row.number != previous.value.number + 1 {
        found := found + 1;
      }
      if row.prev != Some(previous.value.hash) {
        found := found + 1;
      }
    }
  }

  lemma SoundExtends(rows: seq<Row>, n: nat)
    requires n < |rows|
    ensures Sound(rows[..n + 1]) <==>
            Sound(rows[..n]) && HashMatches(rows[n]) && (n > 0 ==> Links(rows[n - 1], rows[n]))
  {
    assert rows[..n + 1] == rows[..n] + [rows[n]];
    assert forall i :: 0 <= i < n ==> rows[..n + 1][i] == rows[..n][i];
    assert rows[..n + 1][n] == rows[n];
    if Sound(rows[..n + 1]) && n > 0 { assert Links(rows[..n + 1][n - 1], rows[..n + 1][n]); }
  }

  lemma {:induction false} AfterIsSuffix(rows: seq<Row>, after: int)
    requires Ascending(rows)
    ensures |After(rows, after)| <= |rows| && After(rows, after) == rows[|rows| - |After(rows, after)|..]
    ensures forall i :: 0 <= i < |rows| ==> (rows[i].number > after <==> i >= |rows| - |After(rows, after)|)
    ensures Ascending(After(rows, after))
  {
    if rows != [] && rows[0].number <= after {
      AfterIsSuffix(rows[1..], after);
      assert forall i :: 0 < i < |rows| ==> rows[i] == rows[1..][i - 1];
    }
  }

  /** The rows after the newest one seen are the ones not seen yet, so a batch neither
      repeats nor skips a row. */
  lemma NextPage(rows: seq<Row>, done: nat)
    requires Ascending(rows) && done <= |After(rows, -1)|
    ensures var seen := After(rows, -1);
            var after := if done == 0 then -1 else seen[done - 1].number;
            After(rows, after) == seen[done..]
  {
    var seen := After(rows, -1);
    var after := if done == 0 then -1 else seen[done - 1].number;
    AfterIsSuffix(rows, -1);
    AfterIsSuffix(rows, after);
    if done > 0 {
      var k := |rows| - |seen|;
      assert rows[k + done - 1] == seen[done - 1];
      assert |After(rows, after)| == |seen| - done;
    }
  }

  lemma PageIsNext(rows: seq<Row>, done: nat, limit: nat)
    requires Ascending(rows) && done <= |After(rows, -1)| && limit > 0
    ensures var seen := After(rows, -1);
            var page := Page(rows, if done == 0 then -1 else seen[done - 1].number, limit);
            done + |page| <= |seen| && page == seen[done..done + |page|] && (page == [] ==> done == |seen|)
  {
    NextPage(rows, done);
  }

  // ----- what an intact report proves -----

  /** The honest rows with the given numbers. */
  function Pick(entries: seq<Entry>, numbers: seq<nat>): (r: seq<Row>)
    requires forall i :: 0 <= i < |numbers| ==> 1 <= numbers[i] <= |entries|
    ensures |r| == |numbers|
    ensures forall i :: 0 <= i < |numbers| ==> r[i] == HonestRow(entries, numbers[i])
  {
    seq(|numbers|, i requires 0 <= i < |numbers| => HonestRow(entries, numbers[i]))
  }

  /** Of an honest chain, whatever rows were removed, the report is intact exactly when the
      rows left are none, or all from some number up to the head. */
  lemma RetainedIsIntactIffSuffix(entries: seq<Entry>, numbers: seq<nat>)
    requires forall i :: 0 <= i < |numbers| ==> 1 <= numbers[i] <= |entries|
    ensures Intact(Pick(entries, numbers), |entries|, Head(entries, |entries|)) <==>
            numbers == [] || (numbers[|numbers| - 1] == |entries|
                              && forall i :: 0 < i < |numbers| ==> numbers[i] == numbers[i - 1] + 1)
  {
    var rows := Pick(entries, numbers);
    forall i | 0 < i < |rows| ensures Links(rows[i - 1], rows[i]) <==> numbers[i] == numbers[i - 1] + 1 {
      assert rows[i - 1] == HonestRow(entries, numbers[i - 1]) && rows[i] == HonestRow(entries, numbers[i]);
    }
  }

  /** The row is the honest one, up to a missing previous hash being stored as empty text. */
  ghost predicate SameRow(r: Row, honest: Row) {
    r.number == honest.number && r.hash == honest.hash && r.entry == honest.entry
    && OrBlank(r.prev) == OrBlank(honest.prev)
  }

  lemma {:induction false} IntactFromEnd(entries: seq<Entry>, rows: seq<Row>, i: nat)
    requires Intact(rows, |entries|, Head(entries, |entries|)) && i < |rows|
    ensures var n := |entries| - (|rows| - 1 - i);
            1 <= n && SameRow(rows[i], HonestRow(entries, n))
    decreases |rows| - i
  {
    var n := |entries| - (|rows| - 1 - i);
    assert HashMatches(rows[i]);
    if i < |rows| - 1 {
      IntactFromEnd(entries, rows, i + 1);
      assert Links(rows[i], rows[i + 1]);
      assert OrBlank(rows[i + 1].prev) == rows[i].hash;
    } else {
      assert |entries| > 0;
    }
  }

  /** If the organisation head is the honest one and the report is intact with at least one
      row, the rows are exactly the honest ones from the first number to the head, unless the
      very first row's missing previous hash was stored as empty text. */
  lemma IntactRowsAreHonest(entries: seq<Entry>, rows: seq<Row>)
    requires rows != [] && Intact(rows, |entries|, Head(entries, |entries|))
    ensures 1 <= rows[0].number == |entries| - |rows| + 1
    ensures forall i :: 0 <= i < |rows| ==> SameRow(rows[i], HonestRow(entries, rows[0].number + i))
    ensures (forall i :: 0 <= i < |rows| ==> rows[i] == HonestRow(entries, rows[0].number + i))
            <==> rows[0].prev != Some(Blank)
  {
    forall i | 0 <= i < |rows|
      ensures 1 <= |entries| - (|rows| - 1 - i) && SameRow(rows[i], HonestRow(entries, |entries| - (|rows| - 1 - i)))
    {
      IntactFromEnd(entries, rows, i);
    }
    forall i | 0 < i < |rows| ensures rows[i].prev == HonestRow(entries, rows[0].number + i).prev {
      assert Links(rows[i - 1], rows[i]);
    }
  }

  /** The first row's empty previous hash is the one edit the report cannot see. */
  lemma BlankPreviousIsAccepted(entry: Entry)
    ensures var tampered := HonestRow([entry], 1).(prev := Some(Blank));
            tampered != HonestRow([entry], 1) && Intact([tampered], 1, Head([entry], 1))
  {
    assert Head([entry], 0) == None;
  }
}
