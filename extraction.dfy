/** The string handling of the extraction helpers (main.py, `scrape_business_data`
    and `extract_coordinates_from_url`): the category and location taken from
    the search text, and the latitude/longitude fields cut out of the page URL.
    Float parsing is a parameter. */
module Extraction {
  import opened Wrappers
  import opened Strings

  const InSeparator: string := " in "

  /** `search.split(' in ')[0].strip() if ' in ' in search else search`. */
  function Category(search: string): string {
    if Contains(search, InSeparator) then Strip(Split(search, InSeparator)[0]) else search
  }

  /** `search.split(' in ')[-1].strip() if ' in ' in search else ""`. */
  function Location(search: string): string {
    if Contains(search, InSeparator) then Strip(Last(Split(search, InSeparator))) else ""
  }

  /** A slice of a string free of `sep` is free of `sep`. */
  lemma {:induction false} SliceFree(s: string, sep: string, lo: nat, hi: nat)
    requires lo <= hi <= |s| && forall j :: !OccursAt(s, sep, j)
    ensures forall j :: !OccursAt(s[lo..hi], sep, j)
  {
    forall j | OccursAt(s[lo..hi], sep, j) ensures false {
      OccursInSlice(s, sep, lo, hi, j);
    }
  }

  lemma {:induction false} StripFree(s: string, sep: string)
    requires forall j :: !OccursAt(s, sep, j)
    ensures forall j :: !OccursAt(Strip(s), sep, j)
  {
    StripSplits(s);
    var i := SkipSpaces(s, 0);
    SliceFree(s, sep, i, i + |Strip(s)|);
  }

  /** With `' in '` in the search text, the category is the stripped text
      before its first occurrence; without it, the category is the whole text,
      unstripped, and the location is empty. Neither ever contains `' in '`
      when the separator was found. */
  lemma {:induction false} CategoryBeforeFirst(search: string)
    ensures FindFrom(search, InSeparator, 0).Some? ==>
              Category(search) == Strip(search[..FindFrom(search, InSeparator, 0).value])
              && !Contains(Category(search), InSeparator)
              && !Contains(Location(search), InSeparator)
    ensures FindFrom(search, InSeparator, 0).None? ==> Category(search) == search && Location(search) == ""
  {
    var pieces := Split(search, InSeparator);
    SplitFirst(search, InSeparator);
    if Contains(search, InSeparator) {
      SplitPiecesFree(search, InSeparator);
      StripFree(pieces[0], InSeparator);
      StripFree(Last(pieces), InSeparator);
    }
  }

  /** With `' in '` in the search text, the location is the stripped text
      after the last occurrence that Python's left-to-right split cuts at;
      no occurrence starts in that text. */
  lemma {:induction false} LocationAfterLast(search: string)
    requires Contains(search, InSeparator)
    ensures var m := LastCut(search, InSeparator, 0);
            && |InSeparator| <= m <= |search| && OccursAt(search, InSeparator, m - |InSeparator|)
            && (forall j :: m <= j ==> !OccursAt(search, InSeparator, j))
            && Location(search) == Strip(search[m..])
  {
    LastPieceAfterCut(search, InSeparator);
  }

  /** Overlapping separators: the left-to-right split of "a in in b" cuts at
      the first " in " only, so the location is "in b", although a later
      " in " starts at index 4. */
  lemma {:induction false} LocationOverlap()
    ensures Location("a in in b") == "in b"
    ensures Category("a in in b") == "a"
    ensures OccursAt("a in in b", InSeparator, 4)
  {
    var s := "a in in b";
    assert s[0..4][0] != InSeparator[0];
    assert s[1..5] == InSeparator;
    assert s[4..8] == InSeparator;
    FindFromFirst(s, InSeparator, 0, 1);
    forall j | 5 <= j ensures !OccursAt(s, InSeparator, j) {
      if j == 5 {
        assert s[5..9][0] != InSeparator[0];
      }
    }
    FindFromNone(s, InSeparator, 5);
    assert SplitFrom(s, InSeparator, 5) == [s[5..]];
    assert s[0..1] == "a" && s[5..] == "in b";
    assert Split(s, InSeparator) == [s[0..1]] + SplitFrom(s, InSeparator, 5);
    StripTrimmed("a");
    StripTrimmed("in b");
  }

  // ---------------------------------------------------------------------
  // Coordinates
  // ---------------------------------------------------------------------

  /** `url.split('/@')[-1].split('/')[0]`. */
  function CoordinateText(url: string): string {
    Split(Last(Split(url, "/@")), "/")[0]
  }

  /** The two comma-separated fields of the coordinate text, or `None` where
      indexing the second one raises. */
  function CoordinateFields(url: string): (r: Option<(string, string)>)
    ensures r.Some? <==> Contains(CoordinateText(url), ",")
    ensures r.Some? ==> forall j :: !OccursAt(r.value.0, ",", j) && !OccursAt(r.value.1, ",", j)
  {
    var parts := Split(CoordinateText(url), ",");
    SplitPiecesFree(CoordinateText(url), ",");
    SplitFirst(CoordinateText(url), ",");
    if |parts| < 2 then None else Some((parts[0], parts[1]))
  }

  /** `extract_coordinates_from_url`: both floats, or `(None, None)` (here
      `None`) when any step raises. */
  function ExtractCoordinates(url: string, parseFloat: string -> Option<real>): (r: Option<(real, real)>)
    ensures r.Some? <==> CoordinateFields(url).Some?
                         && parseFloat(CoordinateFields(url).value.0).Some?
                         && parseFloat(CoordinateFields(url).value.1).Some?
  {
    match CoordinateFields(url)
    case None => None
    case Some(fields) =>
      match (parseFloat(fields.0), parseFloat(fields.1))
      case (Some(lat), Some(lng)) => Some((lat, lng))
      case _ => None
  }

  /** The URL shape the extraction expects: anything, then `/@`, the two
      coordinates, and a tail that starts a new path segment or a further
      comma field. */
  ghost predicate CoordinateParts(lat: string, lng: string, tail: string) {
    NoChar(lat, '/') && NoChar(lat, ',') && NoChar(lng, '/') && NoChar(lng, ',')
    && (tail == "" || tail[0] == '/' || tail[0] == ',')
    && forall j :: !OccursAt(tail, "/@", j)
  }

  /** The text after the `/@` marker is what the last marker-split piece holds. */
  lemma {:induction false} AfterMarker(prefix: string, c: string)
    requires forall j :: !OccursAt(c, "/@", j)
    ensures Last(Split(prefix + "/@" + c, "/@")) == c
  {
    var url := prefix + "/@" + c;
    var k := |prefix|;
    assert url[k..k + 2] == "/@";
    forall j | k - 2 < j < k ensures !OccursAt(url, "/@", j) {
      assert "/@"[1] == '@' && url[k] == '/';
    }
    LastCutReaches(url, "/@", 0, k);
    FindFromFirst(url, "/@", k, k);
    forall j | k + 2 <= j ensures !OccursAt(url, "/@", j) {
      assert url == (prefix + "/@") + c;
      OccursShift(prefix + "/@", c, "/@", j - (k + 2));
    }
    FindFromNone(url, "/@", k + 2);
    LastCutStep(url, "/@", k, k);
    LastCutEnd(url, "/@", k + 2);
    SplitFromLast(url, "/@", 0);
    assert url[k + 2..] == c;
  }

  lemma {:induction false} MarkerFree(lat: string, lng: string, tail: string)
    requires CoordinateParts(lat, lng, tail)
    ensures forall j :: !OccursAt(lat + "," + lng + tail, "/@", j)
  {
    var x := lat + "," + lng;
    var c := x + tail;
    assert NoChar(x, '/');
    forall j ensures !OccursAt(c, "/@", j) {
      if 0 <= j < |x| {
        assert "/@"[0] == '/' && c[j] == x[j];
      } else if |x| <= j {
        OccursShift(x, tail, "/@", j - |x|);
      }
    }
  }

  /** The first `/`-piece of the tail is empty or starts with a comma. */
  lemma {:induction false} TailHead(tail: string)
    requires tail == "" || tail[0] == '/' || tail[0] == ','
    ensures var t := Split(tail, "/")[0]; t == "" || t[0] == ','
  {
    SplitFirst(tail, "/");
    if tail != "" {
      OccursChar(tail, '/', 0);
      assert "/" == ['/'];
      if tail[0] == '/' {
        FindFromFirst(tail, "/", 0, 0);
      }
    } else {
      FindFromNone(tail, "/", 0);
    }
  }

  lemma {:induction false} CommaHead(t: string)
    requires t == "" || t[0] == ','
    ensures Split(t, ",")[0] == ""
  {
    assert "," == [','];
    SplitFirst(t, ",");
    if t == "" {
      FindFromNone(t, ",", 0);
    } else {
      OccursChar(t, ',', 0);
      FindFromFirst(t, ",", 0, 0);
    }
  }

  /** Round trip: the fields cut out of a URL built from two coordinate
      strings are those two strings. */
  lemma {:induction false} CoordinateFieldsRoundTrip(prefix: string, lat: string, lng: string, tail: string)
    requires CoordinateParts(lat, lng, tail)
    ensures CoordinateFields(prefix + "/@" + lat + "," + lng + tail) == Some((lat, lng))
  {
    var x := lat + "," + lng;
    var c := x + tail;
    assert prefix + "/@" + lat + "," + lng + tail == prefix + "/@" + c;
    MarkerFree(lat, lng, tail);
    AfterMarker(prefix, c);
    assert "/" == ['/'] && "," == [','];
    assert NoChar(x, '/');
    SplitHeadPrefix(x, tail, '/');
    var t := Split(tail, "/")[0];
    TailHead(tail);
    assert CoordinateText(prefix + "/@" + c) == lat + [','] + (lng + t);
    SplitCharHead(lat, ',', lng + t);
    SplitHeadPrefix(lng, t, ',');
    CommaHead(t);
    assert lng + "" == lng;
  }

  /** With both coordinate strings parseable, extraction yields their values. */
  lemma {:induction false} ExtractCoordinatesRoundTrip(prefix: string, lat: string, lng: string, tail: string,
                                    parseFloat: string -> Option<real>)
    requires CoordinateParts(lat, lng, tail)
    ensures ExtractCoordinates(prefix + "/@" + lat + "," + lng + tail, parseFloat)
            == if parseFloat(lat).Some? && parseFloat(lng).Some?
               then Some((parseFloat(lat).value, parseFloat(lng).value)) else None
  {
    CoordinateFieldsRoundTrip(prefix, lat, lng, tail);
  }
}
