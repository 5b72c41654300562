/** The metadata decoder: a comma-separated `key,value,key,value,...` list turned into a
    dictionary, and that dictionary into the seven-field `Metadata` record. */
module ParseUtils {
  import opened JsString
  import opened Wrappers

  /* ---------------- parseKeyValueList ---------------- */

  /** The value a key at position `i` receives: the element after it, trimmed, or the
      empty string when the key is the last element. */
  function ValueAfter(items: seq<string>, i: nat): string
    requires i < |items|
  {
    Trim(if i + 1 < |items| then items[i + 1] else "")
  }

  /** One step of the fold: an even position stores its lower-cased element as a key. */
  function Step(res: map<string, string>, items: seq<string>, i: nat): map<string, string>
    requires i < |items|
  {
    if i % 2 == 0 then res[Lower(items[i]) := ValueAfter(items, i)] else res
  }

  /** The accumulator once the fold has visited the first `n` elements. */
  function Collect(items: seq<string>, n: nat): map<string, string>
    requires n <= |items|
    decreases n
  {
    if n == 0 then map[] else Step(Collect(items, n - 1), items, n - 1)
  }

  /** `parseKeyValueList`: split on commas, then fold over all the pieces. */
  function ParseKeyValueList(data: string): map<string, string>
  {
    var items := Split(data, ',');
    Collect(items, |items|)
  }

  /** Reference definition, scanning backwards: the last even position before `n` whose
      lower-cased element is `k`. */
  function LastKeyIndex(items: seq<string>, n: nat, k: string): (r: Option<nat>)
    requires n <= |items|
    ensures r.Some? ==> r.value < n
    decreases n
  {
    if n == 0 then None
    else if (n - 1) % 2 == 0 && Lower(items[n - 1]) == k then Some(n - 1)
    else LastKeyIndex(items, n - 1, k)
  }

  /** The backward scan finds a key position holding `k` with none after it, and finds
      nothing only when no key position holds `k`. */
  lemma {:induction false} LastKeyIndexSpec(items: seq<string>, n: nat, k: string)
    requires n <= |items|
    ensures var r := LastKeyIndex(items, n, k);
            (r.Some? ==> KeyAt(items, r.value, k)
                         && forall j :: r.value < j < n ==> !KeyAt(items, j, k))
            && (r.None? ==> forall j :: 0 <= j < n ==> !KeyAt(items, j, k))
    decreases n
  {
    if n > 0 && !KeyAt(items, n - 1, k) {
      LastKeyIndexSpec(items, n - 1, k);
    }
  }

  /** The fold agrees with the backward scan: a key is present exactly when some even
      position carries it, and its value comes from the last such position. */
  lemma {:induction false} CollectIsLastKey(items: seq<string>, n: nat, k: string)
    requires n <= |items|
    ensures k in Collect(items, n) <==> LastKeyIndex(items, n, k).Some?
    ensures k in Collect(items, n) ==>
              Collect(items, n)[k] == ValueAfter(items, LastKeyIndex(items, n, k).value)
    decreases n
  {
    if n > 0 {
      CollectIsLastKey(items, n - 1, k);
      var prev := Collect(items, n - 1);
      assert Collect(items, n) == Step(prev, items, n - 1);
      if (n - 1) % 2 == 0 && Lower(items[n - 1]) == k {
        assert LastKeyIndex(items, n, k) == Some(n - 1);
        assert Collect(items, n) == prev[k := ValueAfter(items, n - 1)];
      } else {
        assert LastKeyIndex(items, n, k) == LastKeyIndex(items, n - 1, k);
        assert k in Collect(items, n) <==> k in prev;
        assert k in prev ==> Collect(items, n)[k] == prev[k];
      }
    }
  }

  /** Position `i` of `items` is a key position holding `k` once lower-cased. */
  predicate KeyAt(items: seq<string>, i: nat, k: string)
  {
    i < |items| && i % 2 == 0 && Lower(items[i]) == k
  }

  /** The keys of the dictionary are exactly the lower-cased elements at even positions
      (not trimmed). */
  lemma KeyValueListKeys(data: string, k: string)
    ensures k in ParseKeyValueList(data) <==> exists i: nat :: KeyAt(Split(data, ','), i, k)
  {
    var items := Split(data, ',');
    CollectIsLastKey(items, |items|, k);
    LastKeyIndexSpec(items, |items|, k);
    assert ParseKeyValueList(data) == Collect(items, |items|);
    var last := LastKeyIndex(items, |items|, k);
    if last.Some? {
      var i: nat := last.value;
      assert KeyAt(Split(data, ','), i, k);
      assert k in ParseKeyValueList(data);
    } else {
      assert k !in ParseKeyValueList(data);
      forall i: nat | KeyAt(items, i, k)
        ensures false
      {
      }
    }
  }

  /** When a key occurs more than once, the value of its last occurrence wins. */
  lemma KeyValueListLastWins(data: string, i: nat)
    requires var items := Split(data, ',');
             i < |items| && i % 2 == 0 &&
             forall j :: i < j < |items| && j % 2 == 0 ==> Lower(items[j]) != Lower(items[i])
    ensures var items := Split(data, ',');
            Lower(items[i]) in ParseKeyValueList(data) &&
            ParseKeyValueList(data)[Lower(items[i])] == ValueAfter(items, i)
  {
    var items := Split(data, ',');
    var k := Lower(items[i]);
    CollectIsLastKey(items, |items|, k);
    LastKeyIndexSpec(items, |items|, k);
    var last := LastKeyIndex(items, |items|, k);
    assert KeyAt(items, i, k);
    assert last.Some?;
    assert last.value == i;
  }

  /** A key in the last position, with nothing after it, maps to the empty string. */
  lemma KeyValueListTrailingKey(data: string)
    requires |Split(data, ',')| % 2 == 1
    ensures var items := Split(data, ',');
            ParseKeyValueList(data)[Lower(items[|items| - 1])] == ""
  {
    var items := Split(data, ',');
    KeyValueListLastWins(data, |items| - 1);
  }

  /** Every stored value has white space trimmed from both ends, and none contains a comma. */
  lemma KeyValueListValuesTrimmed(data: string, k: string)
    requires k in ParseKeyValueList(data)
    ensures var v := ParseKeyValueList(data)[k];
            Trim(v) == v && ',' !in v
  {
    var items := Split(data, ',');
    CollectIsLastKey(items, |items|, k);
    var i := LastKeyIndex(items, |items|, k).value;
    var raw := if i + 1 < |items| then items[i + 1] else "";
    assert ',' !in raw;
    TrimIdempotent(raw);
    TrimIntroducesNothing(raw, ',');
  }

  /* ---------------- parseMetadata ---------------- */

  /** A property of the result object: absent (`undefined`), `null`, or a value. */
  datatype Field<T> = Undefined | Null | Value(value: T)

  /** The `Metadata` record: seven optional properties. */
  datatype Metadata = Metadata(
    title: Field<string>,
    artist: Field<string>,
    album: Field<string>,
    year: Field<JsNumber>,
    comment: Field<string>,
    track: Field<JsNumber>,
    genre: Field<string>)

  /** `raw.k`: the dictionary entry, `undefined` when the key is missing. */
  function Lookup(raw: map<string, string>, k: string): Field<string>
  {
    if k in raw then Value(raw[k]) else Undefined
  }

  /** `raw.k ? parseInt(raw.k, 10) : null`: parsed when present and non-empty. */
  function NumberField(raw: map<string, string>, k: string): Field<JsNumber>
  {
    if k in raw && raw[k] != "" then Value(ParseInt(raw[k])) else Null
  }

  /** The literal the engine reports when a file has no metadata. */
  const NoMetadata: string := "(null)"

  /** `parseMetadata`. */
  function ParseMetadata(data: string): Metadata
  {
    if data == NoMetadata then
      Metadata(Null, Null, Null, Null, Null, Null, Null)
    else
      var raw := ParseKeyValueList(data);
      Metadata(
        Lookup(raw, "title"),
        Lookup(raw, "artist"),
        Lookup(raw, "album"),
        NumberField(raw, "year"),
        Lookup(raw, "comment"),
        NumberField(raw, "track"),
        Lookup(raw, "genre"))
  }

  /** Reference definition of a text property: the value after the last even position
      whose lower-cased element is `k`, or `undefined` when there is none. */
  function LastValue(items: seq<string>, k: string): Field<string>
  {
    match LastKeyIndex(items, |items|, k)
    case None => Undefined
    case Some(i) => Value(ValueAfter(items, i))
  }

  /** Reference definition of a numeric property: parsed from the last value when that
      value is non-empty, otherwise `null`. */
  function LastNumber(items: seq<string>, k: string): Field<JsNumber>
  {
    match LastValue(items, k)
    case Value(v) => if v != "" then Value(ParseInt(v)) else Null
    case _ => Null
  }

  /** Reading a property from the dictionary is the same as taking it from the last
      occurrence of its key in the pieces. */
  lemma LookupIsLastValue(data: string, k: string)
    ensures Lookup(ParseKeyValueList(data), k) == LastValue(Split(data, ','), k)
    ensures NumberField(ParseKeyValueList(data), k) == LastNumber(Split(data, ','), k)
  {
    var items := Split(data, ',');
    CollectIsLastKey(items, |items|, k);
  }

  /** The no-metadata report yields a record whose seven properties are all `null`. */
  lemma MetadataOfNull()
    ensures ParseMetadata(NoMetadata) == Metadata(Null, Null, Null, Null, Null, Null, Null)
  {
  }

  /** Any other text decodes property by property from the last occurrence of each key:
      text properties are copied (absent keys stay `undefined`, never `null`), and `year`
      and `track` are parsed when their value is non-empty and are `null` otherwise. */
  lemma MetadataFromLastValues(data: string)
    requires data != NoMetadata
    ensures var items := Split(data, ',');
            var m := ParseMetadata(data);
            m.title == LastValue(items, "title") && m.artist == LastValue(items, "artist")
            && m.album == LastValue(items, "album") && m.comment == LastValue(items, "comment")
            && m.genre == LastValue(items, "genre")
            && m.year == LastNumber(items, "year") && m.track == LastNumber(items, "track")
  {
    LookupIsLastValue(data, "title");
    LookupIsLastValue(data, "artist");
    LookupIsLastValue(data, "album");
    LookupIsLastValue(data, "year");
    LookupIsLastValue(data, "comment");
    LookupIsLastValue(data, "track");
    LookupIsLastValue(data, "genre");
  }

  /** A numeric property whose last value is non-empty but holds no decimal digit is
      NaN, not `null`. */
  lemma NumberWithoutDigitsIsNaN(data: string, k: string)
    requires LastValue(Split(data, ','), k).Value?
    requires var v := LastValue(Split(data, ','), k).value;
             v != "" && forall j :: 0 <= j < |v| ==> !IsDigit(v[j])
    ensures NumberField(ParseKeyValueList(data), k) == Value(NaN)
    ensures data != NoMetadata && k == "year" ==> ParseMetadata(data).year == Value(NaN)
    ensures data != NoMetadata && k == "track" ==> ParseMetadata(data).track == Value(NaN)
  {
    LookupIsLastValue(data, k);
    ParseIntNaN(LastValue(Split(data, ','), k).value);
  }

  /** Only the no-metadata report produces `null` text properties, and the numeric
      properties are never `undefined`. */
  lemma MetadataNullOnlyForNoMetadata(data: string)
    ensures var m := ParseMetadata(data);
            (m.title == Null <==> data == NoMetadata)
            && m.year != Undefined && m.track != Undefined
  {
    if data != NoMetadata {
      MetadataFromLastValues(data);
    }
  }

  /** The pieces of the metadata line of a well-known album track. */
  const ExampleItems: seq<string> :=
    ["Title", "Everything In Its Right Place ", "Artist", "Radiohead   ", "Album", "Kid A ",
     "Year", "2000   ", "Comment", "", "Track", "1", "Genre", "Other"]

  /** That metadata line as the engine reports it: the pieces joined by commas. */
  const ExampleReport: string := Join(ExampleItems, ",")

  lemma ExampleKeys()
    ensures Lower(ExampleItems[0]) == "title" && Lower(ExampleItems[2]) == "artist"
    ensures Lower(ExampleItems[4]) == "album" && Lower(ExampleItems[6]) == "year"
    ensures Lower(ExampleItems[8]) == "comment" && Lower(ExampleItems[10]) == "track"
    ensures Lower(ExampleItems[12]) == "genre"
  {
    var items := ExampleItems;
    assert items[0] == "Title" && items[2] == "Artist" && items[4] == "Album";
    assert items[6] == "Year" && items[8] == "Comment" && items[10] == "Track";
    assert items[12] == "Genre";
    assert Lower("Title") == "title";
    assert Lower("Artist") == "artist";
    assert Lower("Album") == "album";
    assert Lower("Year") == "year";
    assert Lower("Comment") == "comment";
    assert Lower("Track") == "track";
    assert Lower("Genre") == "genre";
  }

  lemma ExampleTitle()
    ensures ValueAfter(ExampleItems, 0) == "Everything In Its Right Place"
  {
    TrimPadded("Everything In Its Right Place", " ");
    assert "Everything In Its Right Place" + " " == ExampleItems[1];
  }

  lemma ExampleArtist()
    ensures ValueAfter(ExampleItems, 2) == "Radiohead"
  {
    TrimPadded("Radiohead", "   ");
    assert "Radiohead" + "   " == ExampleItems[3];
  }

  lemma ExampleAlbum()
    ensures ValueAfter(ExampleItems, 4) == "Kid A"
  {
    TrimPadded("Kid A", " ");
    assert "Kid A" + " " == ExampleItems[5];
  }

  lemma ExampleYear()
    ensures ValueAfter(ExampleItems, 6) == "2000"
  {
    TrimPadded("2000", "   ");
    assert "2000" + "   " == ExampleItems[7];
  }

  lemma ExampleRest()
    ensures ValueAfter(ExampleItems, 8) == ""
    ensures ValueAfter(ExampleItems, 10) == "1"
    ensures ValueAfter(ExampleItems, 12) == "Other"
  {
    TrimUnchanged(ExampleItems[9]);
    TrimUnchanged(ExampleItems[11]);
    TrimUnchanged(ExampleItems[13]);
  }

  lemma ExampleNumbers()
    ensures ParseInt("2000") == Int(2000) && ParseInt("1") == Int(1)
  {
    ParseIntDecimal(2000, "");
    assert Decimal(2000) + "" == "2000";
    ParseIntDecimal(1, "");
    assert Decimal(1) + "" == "1";
  }

  lemma ExampleKeyPositions()
    ensures LastKeyIndex(ExampleItems, 14, "title") == Some(0)
    ensures LastKeyIndex(ExampleItems, 14, "artist") == Some(2)
    ensures LastKeyIndex(ExampleItems, 14, "album") == Some(4)
    ensures LastKeyIndex(ExampleItems, 14, "year") == Some(6)
    ensures LastKeyIndex(ExampleItems, 14, "comment") == Some(8)
    ensures LastKeyIndex(ExampleItems, 14, "track") == Some(10)
    ensures LastKeyIndex(ExampleItems, 14, "genre") == Some(12)
  {
    ExampleKeys();
  }

  lemma ExampleTextValues()
    ensures LastValue(ExampleItems, "title") == Value("Everything In Its Right Place")
    ensures LastValue(ExampleItems, "artist") == Value("Radiohead")
    ensures LastValue(ExampleItems, "album") == Value("Kid A")
  {
    ExampleKeyPositions();
    ExampleTitle();
    ExampleArtist();
    ExampleAlbum();
  }

  lemma ExampleNumberValues()
    ensures LastNumber(ExampleItems, "year") == Value(Int(2000))
    ensures LastNumber(ExampleItems, "track") == Value(Int(1))
  {
    ExampleKeyPositions();
    ExampleYear();
    ExampleRest();
    ExampleNumbers();
  }

  lemma ExampleOtherValues()
    ensures LastValue(ExampleItems, "comment") == Value("")
    ensures LastValue(ExampleItems, "genre") == Value("Other")
  {
    ExampleKeyPositions();
    ExampleRest();
  }

  lemma ExampleSplit()
    ensures Split(ExampleReport, ',') == ExampleItems
  {
    SplitJoin(ExampleItems, ',');
  }

  lemma ExampleIsNotNull()
    ensures ExampleReport != NoMetadata
  {
    ExampleSplit();
    SplitWithoutSeparator(NoMetadata, ',');
  }

  /** The example line decodes to the record its tags describe: values trimmed, `year`
      and `track` parsed, and the empty comment kept as an empty string. */
  lemma MetadataOfExample()
    ensures ParseMetadata(ExampleReport) == Metadata(
              Value("Everything In Its Right Place"), Value("Radiohead"), Value("Kid A"),
              Value(Int(2000)), Value(""), Value(Int(1)), Value("Other"))
  {
    ExampleSplit();
    ExampleIsNotNull();
    MetadataFromLastValues(ExampleReport);
    ExampleTextValues();
    ExampleNumberValues();
    ExampleOtherValues();
  }
}
