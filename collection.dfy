/** The per-query accumulator (main.py, class `BusinessList`): the records
    accepted so far, in discovery order, and the set of identity keys already
    known, seeded from the master table and grown by every accepted record. */
module Collection {
  import opened Wrappers
  import opened Strings
  import opened Records
  import opened Persistence

  /** `keyword.replace(' ', '_').replace('/', '_')`, the base name of the
      per-keyword file. */
  function SanitizeKeyword(keyword: string): (r: string)
    ensures |r| == |keyword|
    ensures forall i :: 0 <= i < |r| ==> r[i] != ' ' && r[i] != '/'
    ensures forall i :: 0 <= i < |r| ==> r[i] == (if keyword[i] == ' ' || keyword[i] == '/' then '_' else keyword[i])
  {
    ReplaceChar(ReplaceChar(keyword, ' ', '_'), '/', '_')
  }

  lemma {:induction false} SanitizeIdempotent(keyword: string)
    ensures SanitizeKeyword(SanitizeKeyword(keyword)) == SanitizeKeyword(keyword)
  {
  }

  /** Distinct searches can share one per-keyword file: a space, a slash and
      an underscore in the same place all sanitise alike. */
  lemma {:induction false} SanitizeMerges()
    ensures SanitizeKeyword("cafes in paris") == SanitizeKeyword("cafes_in/paris")
  {
  }

  /** The record `load_existing_data` rebuilds from a master row: its name,
      address and phone number, each passed through `str(... or '')`. */
  function SeedRecord(row: Business): Business {
    Blank().(name := Some(OrEmpty(row.name)),
             address := Some(OrEmpty(row.address)),
             phoneNumber := Some(OrEmpty(row.phoneNumber)))
  }

  /** The key `load_existing_data` adds for one master row. */
  function RowKey(row: Business): Key {
    IdentityKey(SeedRecord(row))
  }

  /** A master row seeds exactly the key the row itself has. */
  lemma {:induction false} RowKeyIsIdentityKey(row: Business)
    ensures RowKey(row) == IdentityKey(row)
  {
  }

  /** The keys the seeding loop has added after the rows `rows`. */
  function RowKeys(rows: seq<Business>): set<Key>
    decreases |rows|
  {
    if rows == [] then {} else RowKeys(rows[..|rows| - 1]) + {RowKey(rows[|rows| - 1])}
  }

  lemma {:induction false} RowKeysSnoc(rows: seq<Business>, i: nat)
    requires i < |rows|
    ensures RowKeys(rows[..i + 1]) == RowKeys(rows[..i]) + {RowKey(rows[i])}
  {
    assert rows[..i + 1][..i] == rows[..i];
  }

  lemma {:induction false} RowKeysAreKeys(rows: seq<Business>)
    ensures RowKeys(rows) == KeysOf(rows)
    decreases |rows|
  {
    if rows != [] {
      var front := rows[..|rows| - 1];
      RowKeysAreKeys(front);
      RowKeyIsIdentityKey(rows[|rows| - 1]);
      assert rows == front + [rows[|rows| - 1]];
      KeysOfAppend(front, rows[|rows| - 1]);
    }
  }

  /** The keys known before the first offer: those of the master table's
      rows; nothing when the file is absent or (after a warning) unreadable. */
  function SeedKeys(master: StoredTable): set<Key> {
    if master.Present? then RowKeys(master.rows) else {}
  }

  /** Seeding from a master table knows exactly the keys of its rows. */
  lemma {:induction false} SeedKeysOfRows(rows: seq<Business>)
    ensures SeedKeys(Present(rows)) == KeysOf(rows)
  {
    RowKeysAreKeys(rows);
  }

  class BusinessList {
    const keyword: string
    const sanitizedKeyword: string
    var businesses: seq<Business>
    var seen: set<Key>

    /** The accepted records are pairwise different businesses and all known. */
    ghost predicate Valid()
      reads this
    {
      DistinctKeys(businesses) && KeysOf(businesses) <= seen
    }

    /** `BusinessList(keyword=...)`: empty list, seen set seeded from the master table. */
    constructor (keyword: string, master: StoredTable)
      ensures Valid()
      ensures this.keyword == keyword && sanitizedKeyword == SanitizeKeyword(keyword)
      ensures businesses == [] && seen == SeedKeys(master)
    {
      this.keyword := keyword;
      sanitizedKeyword := SanitizeKeyword(keyword);
      businesses := [];
      seen := {};
      new;
      LoadExistingData(master);
    }

    /** `load_existing_data`: adds the key of every master row, in order. */
    method LoadExistingData(master: StoredTable)
      requires Valid()
      modifies this
      ensures Valid()
      ensures businesses == old(businesses) && seen == old(seen) + SeedKeys(master)
    {
      if master.Present? {
        var rows := master.rows;
        var i := 0;
        while i < |rows|
          invariant 0 <= i <= |rows|
          invariant businesses == old(businesses)
          invariant seen == old(seen) + RowKeys(rows[..i])
          invariant Valid()
        {
          RowKeysSnoc(rows, i);
          seen := seen + {RowKey(rows[i])};
          i := i + 1;
        }
        assert rows[..|rows|] == rows;
      }
    }

    /** `add_business`: accepts the record exactly when its key is new, then
        appends it and remembers its key; otherwise changes nothing. */
    method AddBusiness(b: Business) returns (added: bool)
      requires Valid()
      modifies this
      ensures Valid()
      ensures added <==> IdentityKey(b) !in old(seen)
      ensures added ==> businesses == old(businesses) + [b] && seen == old(seen) + {IdentityKey(b)}
      ensures !added ==> businesses == old(businesses) && seen == old(seen)
    {
      var key := IdentityKey(b);
      if key !in seen {
        DistinctKeysAppend(businesses, b);
        KeysOfAppend(businesses, b);
        businesses := businesses + [b];
        seen := seen + {key};
        added := true;
      } else {
        added := false;
      }
    }
  }

  /** Offering the same record twice to a fresh list: the first offer succeeds
      exactly when the master table does not know the business, the second
      never does. */
  method AddTwice(master: StoredTable, b: Business) returns (first: bool, second: bool)
    ensures first <==> IdentityKey(b) !in SeedKeys(master)
    ensures !second
  {
    var list := new BusinessList("", master);
    first := list.AddBusiness(b);
    second := list.AddBusiness(b);
  }

  /** A record whose name, phone number and address equal those of a master
      row is refused, whatever its other fields hold. */
  method AddSeededDuplicate(rows: seq<Business>, i: nat, b: Business) returns (added: bool)
    requires i < |rows|
    requires b.name == rows[i].name && b.phoneNumber == rows[i].phoneNumber && b.address == rows[i].address
    ensures !added
  {
    var list := new BusinessList("", Present(rows));
    SeedKeysOfRows(rows);
    assert rows[i] in rows;
    added := list.AddBusiness(b);
  }
}
