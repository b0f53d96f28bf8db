/** The scraped business record and the identity key that decides whether two
    records are the same business (main.py, class `Business`). */
module Records {
  import opened Wrappers
  import opened Strings

  /** One business as extracted from a listing; every field may be absent
      (Python `None`), which is distinct from the empty string. */
  datatype Business = Business(
    name: Option<string>,
    address: Option<string>,
    domain: Option<string>,
    website: Option<string>,
    phoneNumber: Option<string>,
    category: Option<string>,
    location: Option<string>,
    reviewsCount: Option<int>,
    reviewsAverage: Option<real>,
    latitude: Option<real>,
    longitude: Option<real>)

  /** The record with every field at its default, `None`. */
  function Blank(): Business {
    Business(None, None, None, None, None, None, None, None, None, None, None)
  }

  /** The normalised `(name, phone, address)` triple that `__hash__` hashes. */
  datatype Key = Key(name: string, phone: string, address: string)

  /** The value Python's `v or ''` falls back to for a missing string. */
  function OrEmpty(v: Option<string>): string {
    match v
    case None => ""
    case Some(s) => s
  }

  /** Name and address component: `str(v).lower().strip() if v else ""`. */
  function Folded(v: Option<string>): string {
    match v
    case None => ""
    case Some(s) => if s == "" then "" else Strip(Lower(s))
  }

  /** Phone component: `str(v).strip() if v else ""`; case is kept. */
  function Stripped(v: Option<string>): string {
    match v
    case None => ""
    case Some(s) => if s == "" then "" else Strip(s)
  }

  /** A folded field has no surrounding whitespace and is in lower case. */
  lemma {:induction false} FoldedNormalForm(v: Option<string>)
    ensures Trimmed(Folded(v)) && Lower(Folded(v)) == Folded(v)
  {
    if v.Some? && v.value != "" {
      var s := v.value;
      StripSplits(Lower(s));
      LowerIdempotent(s);
      LowerStripCommute(Lower(s));
    }
  }

  /** A stripped field has no surrounding whitespace. */
  lemma {:induction false} StrippedNormalForm(v: Option<string>)
    ensures Trimmed(Stripped(v))
  {
    if v.Some? && v.value != "" {
      StripSplits(v.value);
    }
  }

  /** A key whose parts are what normalisation produces: no surrounding
      whitespace anywhere, and name and address already in lower case. */
  predicate Normal(k: Key) {
    Trimmed(k.name) && Trimmed(k.phone) && Trimmed(k.address)
    && Lower(k.name) == k.name && Lower(k.address) == k.address
  }

  /** `Business.__hash__`, with the tuple itself as the key. */
  function IdentityKey(b: Business): Key {
    Key(Folded(b.name), Stripped(b.phoneNumber), Folded(b.address))
  }

  /** Every identity key is in normal form. */
  lemma {:induction false} KeyNormal(b: Business)
    ensures Normal(IdentityKey(b))
  {
    FoldedNormalForm(b.name);
    StrippedNormalForm(b.phoneNumber);
    FoldedNormalForm(b.address);
  }

  lemma {:induction false} FoldedIsLowerStrip(v: Option<string>)
    ensures Folded(v) == Strip(Lower(OrEmpty(v)))
  {
  }

  lemma {:induction false} StrippedIsStrip(v: Option<string>)
    ensures Stripped(v) == Strip(OrEmpty(v))
  {
  }

  /** An absent field and an empty string give the same key. */
  lemma {:induction false} AbsentIsEmpty(b: Business)
    ensures IdentityKey(b.(name := None)) == IdentityKey(b.(name := Some("")))
    ensures IdentityKey(b.(phoneNumber := None)) == IdentityKey(b.(phoneNumber := Some("")))
    ensures IdentityKey(b.(address := None)) == IdentityKey(b.(address := Some("")))
  {
  }

  /** Two optional strings that only differ in letter case. */
  predicate SameUpToCase(v: Option<string>, w: Option<string>) {
    Lower(OrEmpty(v)) == Lower(OrEmpty(w))
  }

  /** Changing the case of the name or the address keeps the key. */
  lemma {:induction false} KeyIgnoresCase(b1: Business, b2: Business)
    requires SameUpToCase(b1.name, b2.name) && SameUpToCase(b1.address, b2.address)
    requires b1.phoneNumber == b2.phoneNumber
    ensures IdentityKey(b1) == IdentityKey(b2)
  {
    FoldedIsLowerStrip(b1.name);
    FoldedIsLowerStrip(b2.name);
    FoldedIsLowerStrip(b1.address);
    FoldedIsLowerStrip(b2.address);
  }

  /** A field padded with whitespace on either side. */
  function Padded(v: Option<string>, before: string, after: string): Option<string> {
    Some(before + OrEmpty(v) + after)
  }

  lemma {:induction false} FoldedIgnoresPadding(v: Option<string>, w1: string, w2: string)
    requires AllSpace(w1) && AllSpace(w2)
    ensures Folded(Padded(v, w1, w2)) == Folded(v)
  {
    var s := OrEmpty(v);
    FoldedIsLowerStrip(v);
    FoldedIsLowerStrip(Padded(v, w1, w2));
    LowerThree(w1, s, w2);
    LowerAllSpace(w1);
    LowerAllSpace(w2);
    StripIgnoresPadding(w1, Lower(s), w2);
  }

  lemma {:induction false} StrippedIgnoresPadding(v: Option<string>, w1: string, w2: string)
    requires AllSpace(w1) && AllSpace(w2)
    ensures Stripped(Padded(v, w1, w2)) == Stripped(v)
  {
    StrippedIsStrip(v);
    StrippedIsStrip(Padded(v, w1, w2));
    StripIgnoresPadding(w1, OrEmpty(v), w2);
  }

  /** Whitespace around any of the three identity fields keeps the key. */
  lemma {:induction false} KeyIgnoresPadding(b: Business, w1: string, w2: string, w3: string, w4: string, w5: string, w6: string)
    requires AllSpace(w1) && AllSpace(w2) && AllSpace(w3) && AllSpace(w4) && AllSpace(w5) && AllSpace(w6)
    ensures IdentityKey(b.(name := Padded(b.name, w1, w2),
                           phoneNumber := Padded(b.phoneNumber, w3, w4),
                           address := Padded(b.address, w5, w6))) == IdentityKey(b)
  {
    FoldedIgnoresPadding(b.name, w1, w2);
    StrippedIgnoresPadding(b.phoneNumber, w3, w4);
    FoldedIgnoresPadding(b.address, w5, w6);
  }

  lemma {:induction false} FoldedNormal(t: string)
    requires Trimmed(t) && Lower(t) == t
    ensures Folded(Some(t)) == t
  {
    if t != "" {
      StripTrimmed(t);
    }
  }

  lemma {:induction false} StrippedTrimmed(t: string)
    requires Trimmed(t)
    ensures Stripped(Some(t)) == t
  {
    if t != "" {
      StripTrimmed(t);
    }
  }

  /** The phone number is not case-folded: two different trimmed phone
      strings give different keys even when they differ only in case. */
  lemma {:induction false} PhoneKeepsCase(b: Business, p: string, q: string)
    requires Trimmed(p) && Trimmed(q) && p != q
    ensures IdentityKey(b.(phoneNumber := Some(p))) != IdentityKey(b.(phoneNumber := Some(q)))
  {
    StrippedTrimmed(p);
    StrippedTrimmed(q);
  }

  /** Fields other than name, phone and address never affect the key. */
  lemma {:induction false} KeyIgnoresOtherFields(b1: Business, b2: Business)
    requires b1.name == b2.name && b1.phoneNumber == b2.phoneNumber && b1.address == b2.address
    ensures IdentityKey(b1) == IdentityKey(b2)
  {
  }

  /** The record holding exactly a key's three strings. */
  function KeyRecord(k: Key): Business {
    Blank().(name := Some(k.name), phoneNumber := Some(k.phone), address := Some(k.address))
  }

  /** Normalisation is a normal form: normalising a key again changes nothing. */
  lemma {:induction false} KeyIdempotent(b: Business)
    ensures IdentityKey(KeyRecord(IdentityKey(b))) == IdentityKey(b)
  {
    var k := IdentityKey(b);
    KeyNormal(b);
    FoldedNormal(k.name);
    StrippedTrimmed(k.phone);
    FoldedNormal(k.address);
  }

  /** The keys of a sequence of records. */
  function KeysOf(bs: seq<Business>): set<Key> {
    set b | b in bs :: IdentityKey(b)
  }

  /** No two records of `bs` are the same business. */
  ghost predicate DistinctKeys(bs: seq<Business>) {
    forall i, j :: 0 <= i < j < |bs| ==> IdentityKey(bs[i]) != IdentityKey(bs[j])
  }

  lemma {:induction false} KeysOfAppend(bs: seq<Business>, b: Business)
    ensures KeysOf(bs + [b]) == KeysOf(bs) + {IdentityKey(b)}
  {
    assert forall x :: x in bs + [b] <==> x in bs || x == b;
  }

  /** Appending a record whose key is new keeps the keys distinct. */
  lemma {:induction false} DistinctKeysAppend(bs: seq<Business>, b: Business)
    requires DistinctKeys(bs) && IdentityKey(b) !in KeysOf(bs)
    ensures DistinctKeys(bs + [b])
  {
    forall i, j | 0 <= i < j < |bs + [b]| ensures IdentityKey((bs + [b])[i]) != IdentityKey((bs + [b])[j]) {
      if j == |bs| {
        assert bs[i] in bs;
      }
    }
  }
}
