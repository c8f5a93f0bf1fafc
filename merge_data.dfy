/** The offline merge script: the existing dataset followed by the new-release
    records rewritten into the dataset's schema. JSON objects are maps from key
    to value; reading and writing the files are the inputs and the outcome. */
module MergeData {
  import opened Common
  import opened Seqs
  import opened Catalog

  type Record = map<string, Field>

  /** What the script does in the end: writes these records back, or stops
      without writing. */
  datatype Outcome = Written(records: seq<Record>) | NotWritten

  /** `item.get(key)`: a missing key reads as `None`. */
  function GetKey(item: Record, key: string): (v: Field)
    ensures key in item ==> v == item[key]
    ensures key !in item ==> v == Null
  {
    if key in item then item[key] else Null
  }

  /** `str(value)` of a JSON scalar. */
  function PyStr(v: Field): (s: string)
    ensures v.Text? ==> s == v.s
    ensures v.Null? ==> s == "None"
    ensures v.Num? ==> s == IntToString(v.n)
    ensures v.Absent? ==> s == ""
  {
    match v
    case Text(t) => t
    case Null => "None"
    case Absent => ""
    case Num(n) => IntToString(n)
  }

  /** `1 if item.get("platform") == name else 0`. */
  function Flag(item: Record, name: string): (f: Field)
    ensures f == Num(1) || f == Num(0)
    ensures f == Num(1) <==> GetKey(item, "platform") == Text(name)
  {
    if GetKey(item, "platform") == Text(name) then Num(1) else Num(0)
  }

  /** `str(item.get("type", "")).lower()`. */
  function TypeText(item: Record): (t: string)
    ensures "type" !in item ==> t == ""
    ensures "type" in item && item["type"].Text? ==> t == Lower(item["type"].s)
    ensures "type" in item && item["type"].Null? ==> t == "none"
    ensures "type" in item && item["type"].Num? ==> t == IntToString(item["type"].n)
  {
    if "type" in item then
      LowerOfPyStr(item["type"]);
      Lower(PyStr(item["type"]))
    else ""
  }

  /** `str(None).lower()` is "none" and `str(n).lower()` is the numeral of `n`. */
  lemma LowerOfPyStr(v: Field)
    ensures v.Null? ==> Lower(PyStr(v)) == "none"
    ensures v.Num? ==> Lower(PyStr(v)) == IntToString(v.n)
  {
    if v.Null? {
      assert Lower("None") == "none";
    } else if v.Num? {
      LowerKeepsNumeral(v.n);
    }
  }

  /** Lowercasing leaves a numeral as it is: digits and '-' are not letters. */
  lemma LowerKeepsNumeral(n: int)
    ensures Lower(IntToString(n)) == IntToString(n)
  {
    var s := IntToString(n);
    forall i | 0 <= i < |s| ensures !IsUpper(s[i]) {
      if n < 0 && i > 0 {
        assert s[i] == NatToString(-n)[i - 1];
      }
    }
  }

  /** The columns of the dataset. */
  const Schema: set<string> :=
    {"Title", "Year", "Age", "IMDb", "Rotten Tomatoes", "Netflix", "Hulu", "Prime Video",
     "Disney+", "Type", "Directors", "Genres", "Country", "Language", "Runtime"}

  /** One new record in the dataset's schema. */
  function Transform(item: Record): Record {
    map[
      "Title" := GetKey(item, "title"),
      "Year" := GetKey(item, "year"),
      "Age" := Null,
      "IMDb" := GetKey(item, "imdb_rating"),
      "Rotten Tomatoes" := Null,
      "Netflix" := Flag(item, "Netflix"),
      "Hulu" := Flag(item, "Hulu"),
      "Prime Video" := Flag(item, "Prime Video"),
      "Disney+" := Flag(item, "Disney+"),
      "Type" := Text(TypeText(item)),
      "Directors" := Null,
      "Genres" := Null,
      "Country" := Null,
      "Language" := Null,
      "Runtime" := Null
    ]
  }

  /** A transformed record has exactly the dataset's columns. */
  lemma TransformSchema(item: Record)
    ensures Transform(item).Keys == Schema
  {
  }

  /** The title, year and rating are copied; the type is its lowercased text. */
  lemma TransformCopies(item: Record)
    ensures var r := Transform(item);
      r["Title"] == GetKey(item, "title") && r["Year"] == GetKey(item, "year") &&
      r["IMDb"] == GetKey(item, "imdb_rating") && r["Type"] == Text(TypeText(item))
  {
  }

  /** Every other descriptive column is `None`. */
  lemma TransformClears(item: Record)
    ensures var r := Transform(item);
      r["Age"] == Null && r["Rotten Tomatoes"] == Null && r["Directors"] == Null &&
      r["Genres"] == Null && r["Country"] == Null && r["Language"] == Null && r["Runtime"] == Null
  {
  }

  /** At most one platform flag is set: the one named by the record's `platform`. */
  lemma AtMostOneFlag(item: Record)
    ensures var r := Transform(item);
      |set p | p in Platforms && r[p] == Num(1)| <= 1 &&
      forall p :: p in Platforms ==> (r[p] == Num(1) <==> GetKey(item, "platform") == Text(p))
  {
    var r := Transform(item);
    TransformFlags(item);
    var on := set p | p in Platforms && r[p] == Num(1);
    if GetKey(item, "platform").Text? && GetKey(item, "platform").s in Platforms {
      assert on == {GetKey(item, "platform").s};
    } else {
      assert on == {};
    }
  }

  /** Each platform column holds that platform's flag. */
  lemma TransformFlags(item: Record)
    ensures forall p :: p in Platforms ==> p in Transform(item) && Transform(item)[p] == Flag(item, p)
  {
    var r := Transform(item);
    assert Platforms == ["Netflix", "Hulu", "Prime Video", "Disney+"];
    assert r["Netflix"] == Flag(item, "Netflix") && r["Hulu"] == Flag(item, "Hulu");
    assert r["Prime Video"] == Flag(item, "Prime Video") && r["Disney+"] == Flag(item, "Disney+");
  }

  function TransformAll(items: seq<Record>): (r: seq<Record>)
    ensures |r| == |items|
    ensures forall k :: 0 <= k < |items| ==> r[k] == Transform(items[k])
  {
    seq(|items|, k requires 0 <= k < |items| => Transform(items[k]))
  }

  /** What `main()` writes: nothing when either file fails to load or the new file
      is missing; otherwise the existing records (none if that file is missing)
      followed by the transformed new records. */
  function MergeOutcome(existing: Source<Record>, newRecords: Source<Record>): (o: Outcome)
    ensures existing.Unreadable? || !newRecords.Loaded? ==> o == NotWritten
    ensures o.Written? ==> newRecords.Loaded? && !existing.Unreadable?
  {
    if existing.Unreadable? || !newRecords.Loaded? then NotWritten
    else
      var base := if existing.Loaded? then existing.records else [];
      Written(base + TransformAll(newRecords.records))
  }

  /** The merged output keeps the existing records as they are, in front, and is
      as long as the two inputs together. */
  lemma MergeKeepsExisting(existing: seq<Record>, items: seq<Record>)
    ensures var o := MergeOutcome(Loaded(existing), Loaded(items));
      o.Written? && |o.records| == |existing| + |items| &&
      o.records[..|existing|] == existing &&
      forall k :: 0 <= k < |items| ==> o.records[|existing| + k] == Transform(items[k])
  {
    var o := MergeOutcome(Loaded(existing), Loaded(items));
    assert o.records == existing + TransformAll(items);
    assert o.records[..|existing|] == existing;
  }

  /** `main()`: loads the two files (given as inputs), transforms the new records
      one by one and reports what it writes. */
  method Merge(existing: Source<Record>, newRecords: Source<Record>) returns (o: Outcome)
    ensures o == MergeOutcome(existing, newRecords)
  {
    var existingData: seq<Record> := [];
    if existing.Unreadable? {
      return NotWritten;
    } else if existing.Loaded? {
      existingData := existing.records;
    }
    if !newRecords.Loaded? {
      return NotWritten;
    }
    var transformed := TransformEach(newRecords.records);
    o := Written(existingData + transformed);
  }

  /** The loop of `main()` over the new records. */
  method TransformEach(items: seq<Record>) returns (transformed: seq<Record>)
    ensures transformed == TransformAll(items)
  {
    transformed := [];
    var i := 0;
    while i < |items|
      invariant 0 <= i <= |items|
      invariant |transformed| == i
      invariant forall k :: 0 <= k < i ==> transformed[k] == Transform(items[k])
    {
      transformed := transformed + [Transform(items[i])];
      i := i + 1;
    }
  }
}
