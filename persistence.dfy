/** Merge-on-save (main.py, `BusinessList.save_to_csv`): the new records are
    appended to the master table and to the per-keyword table, and each
    combined table is de-duplicated on its raw `(name, phone_number, address)`
    columns, keeping the first occurrence as pandas' `drop_duplicates` does.
    Files are abstracted to what reading them gives and to the table written. */
module Persistence {
  import opened Wrappers
  import opened Records

  /** What reading a CSV table gives: no file, a file that fails to parse, or rows. */
  datatype StoredTable = Absent | Unreadable | Present(rows: seq<Business>)

  type Triple = (Option<string>, Option<string>, Option<string>)

  /** The three columns `drop_duplicates` compares, taken as they are. */
  function RawTriple(b: Business): Triple {
    (b.name, b.phoneNumber, b.address)
  }

  function Triples(rows: seq<Business>): set<Triple> {
    set b | b in rows :: RawTriple(b)
  }

  ghost predicate NoRawDuplicates(rows: seq<Business>) {
    forall i, j :: 0 <= i < j < |rows| ==> RawTriple(rows[i]) != RawTriple(rows[j])
  }

  /** `rows[i]` is the first row carrying its triple. */
  ghost predicate FirstOf(rows: seq<Business>, i: int)
    requires 0 <= i < |rows|
  {
    forall j :: 0 <= j < i ==> RawTriple(rows[j]) != RawTriple(rows[i])
  }

  /** `a` is `b` with some elements left out, order kept. */
  ghost predicate Subsequence<T>(a: seq<T>, b: seq<T>)
    decreases |b|
  {
    if a == [] then true
    else if b == [] then false
    else (a[0] == b[0] && Subsequence(a[1..], b[1..])) || Subsequence(a, b[1..])
  }

  lemma {:induction false} AppendAssoc<T>(a: seq<T>, b: seq<T>, c: seq<T>)
    ensures a + (b + c) == a + b + c
  {
  }

  lemma {:induction false} TriplesAppend(a: seq<Business>, b: seq<Business>)
    ensures Triples(a + b) == Triples(a) + Triples(b)
  {
    assert forall x :: x in a + b <==> x in a || x in b;
  }

  lemma {:induction false} TriplesCons(b: Business, rows: seq<Business>)
    ensures Triples([b] + rows) == {RawTriple(b)} + Triples(rows)
  {
    assert forall x :: x in [b] + rows <==> x == b || x in rows;
  }

  lemma {:induction false} ConsDistinct(x: Business, rest: seq<Business>)
    requires NoRawDuplicates(rest) && RawTriple(x) !in Triples(rest)
    ensures NoRawDuplicates([x] + rest)
  {
    forall i, j | 0 <= i < j < |[x] + rest| ensures RawTriple(([x] + rest)[i]) != RawTriple(([x] + rest)[j]) {
      assert ([x] + rest)[j] == rest[j - 1];
      if i == 0 {
        assert rest[j - 1] in rest;
      } else {
        assert ([x] + rest)[i] == rest[i - 1];
      }
    }
  }

  lemma {:induction false} SubsequenceSkip<T>(a: seq<T>, b: seq<T>)
    requires b != [] && Subsequence(a, b[1..])
    ensures Subsequence(a, b)
  {
  }

  /** The rows of `rows` whose triple is neither in `seen` nor on an earlier
      row, in their original order. */
  function DedupFrom(rows: seq<Business>, seen: set<Triple>): seq<Business>
    decreases |rows|
  {
    if rows == [] then []
    else if RawTriple(rows[0]) in seen then DedupFrom(rows[1..], seen)
    else [rows[0]] + DedupFrom(rows[1..], seen + {RawTriple(rows[0])})
  }

  /** The scan keeps one row per triple not in `seen`, and only rows of the input. */
  lemma {:induction false} DedupFromSpec(rows: seq<Business>, seen: set<Triple>)
    ensures var r := DedupFrom(rows, seen);
            && NoRawDuplicates(r)
            && Triples(r) == Triples(rows) - seen
            && Subsequence(r, rows)
    decreases |rows|
  {
    if rows != [] {
      var x, tail := rows[0], rows[1..];
      var t := RawTriple(x);
      assert rows == [x] + tail;
      TriplesCons(x, tail);
      if t in seen {
        DedupFromSpec(tail, seen);
        SubsequenceSkip(DedupFrom(tail, seen), rows);
      } else {
        var rest := DedupFrom(tail, seen + {t});
        DedupFromSpec(tail, seen + {t});
        TriplesCons(x, rest);
        ConsDistinct(x, rest);
        assert ([x] + rest)[1..] == rest;
      }
    }
  }

  /** `drop_duplicates(subset=['name', 'phone_number', 'address'])`. */
  function DropDuplicates(rows: seq<Business>): (r: seq<Business>)
    ensures NoRawDuplicates(r)
    ensures Triples(r) == Triples(rows)
    ensures Subsequence(r, rows)
  {
    DedupFromSpec(rows, {});
    DedupFrom(rows, {})
  }

  lemma {:induction false} SubsequenceMember<T>(a: seq<T>, b: seq<T>, x: T)
    requires Subsequence(a, b) && x in a
    ensures x in b
    decreases |b|
  {
    if a[0] == b[0] && Subsequence(a[1..], b[1..]) {
      if x != a[0] {
        SubsequenceMember(a[1..], b[1..], x);
      }
    } else {
      SubsequenceMember(a, b[1..], x);
    }
  }

  /** Every first occurrence of a triple not already in `seen` is kept, so
      the row kept for a triple is the earliest one. */
  lemma {:induction false} DedupKeepsFirst(rows: seq<Business>, seen: set<Triple>, i: int)
    requires 0 <= i < |rows| && RawTriple(rows[i]) !in seen && FirstOf(rows, i)
    ensures rows[i] in DedupFrom(rows, seen)
    decreases |rows|
  {
    var t := RawTriple(rows[0]);
    if i > 0 {
      assert rows[1..][i - 1] == rows[i];
      assert FirstOf(rows[1..], i - 1) by {
        forall j | 0 <= j < i - 1 ensures RawTriple(rows[1..][j]) != RawTriple(rows[1..][i - 1]) {
          assert rows[1..][j] == rows[j + 1];
        }
      }
      if t in seen {
        DedupKeepsFirst(rows[1..], seen, i - 1);
      } else {
        assert RawTriple(rows[0]) != RawTriple(rows[i]);
        DedupKeepsFirst(rows[1..], seen + {t}, i - 1);
      }
    }
  }

  /** One step of the scan: the head row is kept exactly when its triple is new. */
  lemma {:induction false} DedupFromCons(x: Business, rest: seq<Business>, seen: set<Triple>)
    ensures DedupFrom([x] + rest, seen)
            == if RawTriple(x) in seen then DedupFrom(rest, seen)
               else [x] + DedupFrom(rest, seen + {RawTriple(x)})
  {
    assert ([x] + rest)[0] == x;
    assert ([x] + rest)[1..] == rest;
  }

  lemma {:induction false} DedupAppendSeen(x: Business, a: seq<Business>, b: seq<Business>, seen: set<Triple>)
    requires RawTriple(x) in seen
    requires DedupFrom(a + b, seen) == DedupFrom(a, seen) + DedupFrom(b, seen + Triples(a))
    ensures DedupFrom([x] + a + b, seen) == DedupFrom([x] + a, seen) + DedupFrom(b, seen + Triples([x] + a))
  {
    AppendAssoc([x], a, b);
    DedupFromCons(x, a + b, seen);
    DedupFromCons(x, a, seen);
    TriplesCons(x, a);
    assert seen + Triples([x] + a) == seen + Triples(a);
  }

  lemma {:induction false} DedupAppendNew(x: Business, a: seq<Business>, b: seq<Business>, seen: set<Triple>)
    requires RawTriple(x) !in seen
    requires var s := seen + {RawTriple(x)};
             DedupFrom(a + b, s) == DedupFrom(a, s) + DedupFrom(b, s + Triples(a))
    ensures DedupFrom([x] + a + b, seen) == DedupFrom([x] + a, seen) + DedupFrom(b, seen + Triples([x] + a))
  {
    var s := seen + {RawTriple(x)};
    AppendAssoc([x], a, b);
    DedupFromCons(x, a + b, seen);
    DedupFromCons(x, a, seen);
    TriplesCons(x, a);
    assert s + Triples(a) == seen + Triples([x] + a);
    AppendAssoc([x], DedupFrom(a, s), DedupFrom(b, s + Triples(a)));
  }

  /** De-duplicating a concatenation is de-duplicating the first part, then
      the second part against everything the first part already holds. */
  lemma {:induction false} DedupAppend(a: seq<Business>, b: seq<Business>, seen: set<Triple>)
    ensures DedupFrom(a + b, seen) == DedupFrom(a, seen) + DedupFrom(b, seen + Triples(a))
    decreases |a|
  {
    if a == [] {
      assert a + b == b;
      assert Triples(a) == {};
      assert seen + Triples(a) == seen;
    } else {
      var x, r := a[0], a[1..];
      assert a == [x] + r;
      if RawTriple(x) in seen {
        DedupAppend(r, b, seen);
        DedupAppendSeen(x, r, b, seen);
      } else {
        DedupAppend(r, b, seen + {RawTriple(x)});
        DedupAppendNew(x, r, b, seen);
      }
    }
  }

  /** Rows without duplicates and without a triple in `seen` come through whole. */
  lemma {:induction false} DedupDistinct(rows: seq<Business>, seen: set<Triple>)
    requires NoRawDuplicates(rows) && Triples(rows) !! seen
    ensures DedupFrom(rows, seen) == rows
    decreases |rows|
  {
    if rows != [] {
      var t := RawTriple(rows[0]);
      assert rows == [rows[0]] + rows[1..];
      TriplesCons(rows[0], rows[1..]);
      assert t !in Triples(rows[1..]) by {
        forall x | x in rows[1..] ensures RawTriple(x) != t {
          var j :| 0 <= j < |rows[1..]| && rows[1..][j] == x;
          assert rows[j + 1] == x;
        }
      }
      DedupDistinct(rows[1..], seen + {t});
    }
  }

  lemma {:induction false} DistinctCount(rows: seq<Business>)
    requires NoRawDuplicates(rows)
    ensures |Triples(rows)| == |rows|
    decreases |rows|
  {
    if rows != [] {
      assert rows == [rows[0]] + rows[1..];
      TriplesCons(rows[0], rows[1..]);
      assert RawTriple(rows[0]) !in Triples(rows[1..]) by {
        forall x | x in rows[1..] ensures RawTriple(x) != RawTriple(rows[0]) {
          var j :| 0 <= j < |rows[1..]| && rows[1..][j] == x;
          assert rows[j + 1] == x;
        }
      }
      DistinctCount(rows[1..]);
    }
  }

  /** A merged row whose triple the old table has is a row of the old table. */
  lemma {:induction false} MergeOldRows(prior: seq<Business>, incoming: seq<Business>)
    ensures forall x :: x in DropDuplicates(prior + incoming) && RawTriple(x) in Triples(prior) ==> x in prior
  {
    DedupAppend(prior, incoming, {});
    assert {} + Triples(prior) == Triples(prior);
    var front := DedupFrom(prior, {});
    var back := DedupFrom(incoming, Triples(prior));
    DedupFromSpec(prior, {});
    DedupFromSpec(incoming, Triples(prior));
    forall x | x in back ensures RawTriple(x) !in Triples(prior) {
      assert RawTriple(x) in Triples(back);
    }
    forall x | x in front + back && RawTriple(x) in Triples(prior) ensures x in prior {
      if x !in back {
        SubsequenceMember(front, prior, x);
      }
    }
  }

  /** Merging into a duplicate-free table keeps it whole, in order, at the front. */
  lemma {:induction false} MergeKeepsPrior(prior: seq<Business>, incoming: seq<Business>)
    requires NoRawDuplicates(prior)
    ensures DropDuplicates(prior + incoming) == prior + DedupFrom(incoming, Triples(prior))
  {
    DedupAppend(prior, incoming, {});
    assert {} + Triples(prior) == Triples(prior);
    DedupDistinct(prior, {});
  }

  /** Merging rows that share no triple with a duplicate-free table, and
      have none among themselves, appends them all. */
  lemma {:induction false} MergeDisjoint(prior: seq<Business>, incoming: seq<Business>)
    requires NoRawDuplicates(prior) && NoRawDuplicates(incoming) && Triples(prior) !! Triples(incoming)
    ensures DropDuplicates(prior + incoming) == prior + incoming
  {
    MergeKeepsPrior(prior, incoming);
    DedupDistinct(incoming, Triples(prior));
  }

  /** What the merge of an existing table with the new rows promises: no two
      rows share a triple, every triple of either side is there (so the size is
      the number of distinct triples), a row whose triple the old table has is
      an old row, and a duplicate-free old table is kept whole, in order, at
      the front. */
  lemma {:induction false} MergeProperties(prior: seq<Business>, incoming: seq<Business>)
    ensures var r := DropDuplicates(prior + incoming);
            && NoRawDuplicates(r)
            && Triples(r) == Triples(prior) + Triples(incoming)
            && |r| == |Triples(prior) + Triples(incoming)|
            && (forall x :: x in r && RawTriple(x) in Triples(prior) ==> x in prior)
            && (NoRawDuplicates(prior) ==> r == prior + DedupFrom(incoming, Triples(prior)))
  {
    TriplesAppend(prior, incoming);
    DistinctCount(DropDuplicates(prior + incoming));
    MergeOldRows(prior, incoming);
    if NoRawDuplicates(prior) {
      MergeKeepsPrior(prior, incoming);
    }
  }

  /** Rows that are pairwise different businesses have pairwise different
      raw triples: equal raw columns give equal keys. */
  lemma {:induction false} DistinctKeysRaw(rows: seq<Business>)
    requires DistinctKeys(rows)
    ensures NoRawDuplicates(rows)
  {
    forall i, j | 0 <= i < j < |rows| ensures RawTriple(rows[i]) != RawTriple(rows[j]) {
      if RawTriple(rows[i]) == RawTriple(rows[j]) {
        KeyIgnoresOtherFields(rows[i], rows[j]);
      }
    }
  }

  /** Tables with no business in common share no raw triple. */
  lemma {:induction false} DisjointKeysRaw(a: seq<Business>, b: seq<Business>)
    requires KeysOf(a) !! KeysOf(b)
    ensures Triples(a) !! Triples(b)
  {
    forall x, y | x in a && y in b ensures RawTriple(x) != RawTriple(y) {
      assert IdentityKey(x) in KeysOf(a) && IdentityKey(y) in KeysOf(b);
      if RawTriple(x) == RawTriple(y) {
        KeyIgnoresOtherFields(x, y);
      }
    }
  }

  /** The table to write for one aggregate, or `None` when reading the
      existing file raised: an absent file gets the new rows as they are. */
  function MergeInto(table: StoredTable, incoming: seq<Business>): Option<seq<Business>> {
    match table
    case Absent => Some(incoming)
    case Unreadable => None
    case Present(prior) => Some(DropDuplicates(prior + incoming))
  }

  /** The triples a stored table already holds. */
  function TableTriples(table: StoredTable): set<Triple> {
    if table.Present? then Triples(table.rows) else {}
  }

  lemma {:induction false} MergeIntoDistinct(table: StoredTable, incoming: seq<Business>)
    ensures MergeInto(table, incoming).Some? && NoRawDuplicates(incoming) ==>
              NoRawDuplicates(MergeInto(table, incoming).value)
              && Triples(MergeInto(table, incoming).value) == TableTriples(table) + Triples(incoming)
  {
    if table.Present? {
      MergeProperties(table.rows, incoming);
    }
  }

  /** The result of one save: nothing written; both tables written; the master
      read raised (nothing written); the per-keyword read raised after the
      master was written. */
  datatype SaveOutcome =
    | NoNewData
    | Saved(master: seq<Business>, custom: seq<Business>)
    | MasterReadError
    | CustomReadError(master: seq<Business>)

  /** `save_to_csv`: master first, then the per-keyword table. */
  function SaveToCsv(incoming: seq<Business>, master: StoredTable, custom: StoredTable): (r: SaveOutcome)
    ensures r.NoNewData? <==> incoming == []
    ensures r.MasterReadError? <==> incoming != [] && master.Unreadable?
    ensures r.CustomReadError? <==> incoming != [] && !master.Unreadable? && custom.Unreadable?
    ensures r.Saved? ==> r.master == MergeInto(master, incoming).value
                         && r.custom == MergeInto(custom, incoming).value
    ensures r.CustomReadError? ==> r.master == MergeInto(master, incoming).value
    ensures r.Saved? && NoRawDuplicates(incoming) ==>
              && NoRawDuplicates(r.master) && NoRawDuplicates(r.custom)
              && Triples(r.master) == TableTriples(master) + Triples(incoming)
              && Triples(r.custom) == TableTriples(custom) + Triples(incoming)
  {
    if incoming == [] then NoNewData
    else
      match MergeInto(master, incoming)
      case None => MasterReadError
      case Some(m) =>
        match MergeInto(custom, incoming)
        case None => CustomReadError(m)
        case Some(c) =>
          MergeIntoDistinct(master, incoming);
          MergeIntoDistinct(custom, incoming);
          Saved(m, c)
  }

  /** With new rows and a readable master table, the master table is written,
      holding the merge of its rows with the new ones. */
  lemma {:induction false} SaveWritesMaster(incoming: seq<Business>, rows: seq<Business>, custom: StoredTable)
    requires incoming != []
    ensures var out := SaveToCsv(incoming, Present(rows), custom);
            (out.Saved? || out.CustomReadError?) && out.master == DropDuplicates(rows + incoming)
  {
  }

  /** A table that does not exist yet is written with the new rows as they
      are; an existing table without raw duplicates keeps all its rows, in
      order and ahead of the new ones, which are added only where their
      triple is new. */
  lemma {:induction false} MergeIntoKeepsOld(table: StoredTable, incoming: seq<Business>)
    ensures table.Absent? ==> MergeInto(table, incoming) == Some(incoming)
    ensures table.Present? && NoRawDuplicates(table.rows) ==>
              MergeInto(table, incoming) == Some(table.rows + DedupFrom(incoming, Triples(table.rows)))
  {
    if table.Present? && NoRawDuplicates(table.rows) {
      MergeKeepsPrior(table.rows, incoming);
    }
  }

  /** What `save_to_csv` writes to each table, both written the same way: a
      file that does not exist gets the new rows unchanged, and a
      duplicate-free existing file keeps its rows first and in order. */
  lemma {:induction false} SaveKeepsOldRows(incoming: seq<Business>, master: StoredTable, custom: StoredTable)
    requires incoming != [] && !master.Unreadable?
    ensures var r := SaveToCsv(incoming, master, custom);
            && (r.Saved? || r.CustomReadError?)
            && (master.Absent? ==> r.master == incoming)
            && (master.Present? && NoRawDuplicates(master.rows) ==>
                  r.master == master.rows + DedupFrom(incoming, Triples(master.rows)))
            && (!custom.Unreadable? ==> r.Saved?)
            && (r.Saved? && custom.Absent? ==> r.custom == incoming)
            && (r.Saved? && custom.Present? && NoRawDuplicates(custom.rows) ==>
                  r.custom == custom.rows + DedupFrom(incoming, Triples(custom.rows)))
  {
    MergeIntoKeepsOld(master, incoming);
    MergeIntoKeepsOld(custom, incoming);
  }

  /** Only name, phone number and address enter a key, so two tables with
      the same raw triples know the same keys. */
  lemma {:induction false} KeysOfSubTriples(a: seq<Business>, b: seq<Business>)
    requires Triples(a) <= Triples(b)
    ensures KeysOf(a) <= KeysOf(b)
  {
    forall k | k in KeysOf(a) ensures k in KeysOf(b) {
      var x :| x in a && IdentityKey(x) == k;
      assert RawTriple(x) in Triples(a);
      var y :| y in b && RawTriple(y) == RawTriple(x);
      KeyIgnoresOtherFields(x, y);
    }
  }

  lemma {:induction false} KeysOfSameTriples(a: seq<Business>, b: seq<Business>)
    requires Triples(a) == Triples(b)
    ensures KeysOf(a) == KeysOf(b)
  {
    KeysOfSubTriples(a, b);
    KeysOfSubTriples(b, a);
  }

  /** Where neither table exists yet, both are written with the new rows
      exactly as they are, duplicates included. */
  lemma {:induction false} SaveToAbsent(incoming: seq<Business>)
    requires incoming != []
    ensures SaveToCsv(incoming, Absent, Absent) == Saved(incoming, incoming)
  {
  }
}
