/** `standards.ts`: display metadata (icon, optional description) keyed by the
    exact standard name tools cite, and its lookup with a default. */
module StandardMetadata {
  import opened Text
  import opened Seqs
  import opened Optional
  import opened Js

  /** `StandardMetadata`: an icon and an optional description; no title. */
  datatype Meta = Meta(icon: string, description: Option<string>)

  /** The shipped map, in insertion order. Long descriptions are written as
      concatenations of shorter literals, which denote the same strings. */
  const STANDARD_METADATA: seq<(string, Meta)> := [
    ("DATEX II", Meta("\U{1F6A6}",
      Some("European standard for traffic " + "and travel information exchange"))),
    ("NeTEx", Meta("\U{1F687}",
      Some("Network Timetable Exchange " + "- public transport network data"))),
    ("SIRI", Meta("\U{1F4E1}",
      Some("Service Interface for Real-time " + "Information - live transit data"))),
    ("mobilityDCAT-AP", Meta("\U{1F3F7}\U{FE0F}",
      Some("Mobility Data Catalog Application " + "Profile - metadata standard"))),
    ("DCAT-AP", Meta("\U{1F4CB}",
      Some("Data Catalog Application Profile " + "- EU open data metadata"))),
    ("ISO/DIS 14819 Part 3", Meta("\U{1F4CD}",
      Some("ALERT-C location referencing standard"))),
    ("CEN 16157", Meta("\U{1F4DC}",
      Some("European standard for intelligent " + "transport systems"))),
    ("RDS-TMC", Meta("\U{1F4FB}",
      Some("Radio Data System - Traffic Message Channel"))),
    ("GTFS", Meta("\U{1F68C}",
      Some("General Transit Feed Specification"))),
    ("GBFS", Meta("\U{1F6B2}",
      Some("General Bikeshare Feed Specification " + "- standard for shared mobility systems"))),
    ("TransModel", Meta("\U{1F5FA}\U{FE0F}",
      Some("European reference data model " + "for public transport"))),
    ("GTFS Realtime", Meta("\U{26A1}",
      Some("Real-time transit updates " + "extension for GTFS"))),
    ("RDF", Meta("\U{1F517}",
      Some("Resource Description Framework - " + "W3C standard for linked data "
        + "and semantic web"))),
    ("OSM", Meta("\U{1F30D}",
      Some("OpenStreetMap - collaborative " + "open-source mapping data")))
  ]

  /** The fallback for names without an entry. */
  const DefaultMeta := Meta("\U{1F4C4}", None)

  /** `Object.keys(map)`, in insertion order. */
  function MetaKeys(entries: seq<(string, Meta)>): (keys: seq<string>)
    ensures |keys| == |entries|
    ensures forall i :: 0 <= i < |entries| ==> keys[i] == entries[i].0
  {
    seq(|entries|, i requires 0 <= i < |entries| => entries[i].0)
  }

  /** Position `i` holds the first entry under `name`. */
  predicate FirstWithKey(entries: seq<(string, Meta)>, name: string, i: int) {
    0 <= i < |entries| && entries[i].0 == name && forall j :: 0 <= j < i ==> entries[j].0 != name
  }

  /** `map[name]` on an object with own properties only: the entry under the
      exact key `name`, the first one should the list repeat a key. */
  function Lookup(entries: seq<(string, Meta)>, name: string): (r: Option<Meta>)
    ensures r.None? <==> name !in MetaKeys(entries)
    ensures r.Some? ==> exists i :: FirstWithKey(entries, name, i) && entries[i].1 == r.value
  {
    var keys := MetaKeys(entries);
    var k := IndexOf(keys, name);
    if k == -1 then None
    else
      assert forall j :: 0 <= j < k ==> entries[j].0 == keys[j];
      Some(entries[k].1)
  }

  /** `getStandardMetadata(name)`: the entry under `name`, or the default icon
      with no description. An entry is an object and so never falsy. */
  function GetStandardMetadata(entries: seq<(string, Meta)>, name: string): (r: Meta)
    ensures name !in MetaKeys(entries) ==> r == DefaultMeta
    ensures name in MetaKeys(entries) ==> Some(r) == Lookup(entries, name)
  {
    match Lookup(entries, name)
    case Some(m) => m
    case None => DefaultMeta
  }

  /** In a map with distinct keys, a key finds exactly its own entry. */
  lemma {:induction false} LookupOfKey(entries: seq<(string, Meta)>, i: nat)
    requires i < |entries| && Distinct(MetaKeys(entries))
    ensures GetStandardMetadata(entries, entries[i].0) == entries[i].1
  {
    var r := Lookup(entries, entries[i].0);
    assert MetaKeys(entries)[i] == entries[i].0;
    var k :| FirstWithKey(entries, entries[i].0, k) && entries[k].1 == r.value;
    assert MetaKeys(entries)[k] == MetaKeys(entries)[i];
  }

  /** The entry seen as a parsed record: `icon`, and `description` when present. */
  function AsRecord(m: Meta): (r: Record)
    ensures Get(r, "icon") == Str(m.icon)
    ensures Get(r, "title") == Undefined
    ensures m.description.Some? <==> "description" in r
  {
    var base := map["icon" := Str(m.icon)];
    match m.description
    case Some(d) => base["description" := Str(d)]
    case None => base
  }

  /** The shipped keys, in insertion order. */
  const SHIPPED_KEYS: seq<string> := ["DATEX II", "NeTEx", "SIRI", "mobilityDCAT-AP", "DCAT-AP",
    "ISO/DIS 14819 Part 3", "CEN 16157", "RDS-TMC", "GTFS", "GBFS", "TransModel", "GTFS Realtime",
    "RDF", "OSM"]

  lemma ShippedKeysListed()
    ensures |STANDARD_METADATA| == 14
    ensures MetaKeys(STANDARD_METADATA) == SHIPPED_KEYS
  {
  }

  /** A key's length and first two characters, as one number. */
  function Signature(key: string): int {
    if |key| < 2 then |key| else |key| * 1000000 + key[0] as int * 1000 + key[1] as int
  }

  const ShippedSignatures: seq<int> := [8068065, 5078101, 4083073, 15109111, 7068067, 20073083,
    9067069, 7082068, 4071084, 4071066, 10084114, 13071084, 3082068, 3079083]

  lemma ShippedSignaturesComputed()
    ensures forall i :: 0 <= i < 14 ==> ShippedSignatures[i] == Signature(SHIPPED_KEYS[i])
  {
  }

  lemma ShippedSignaturesDistinct()
    ensures Distinct(ShippedSignatures)
  {
  }

  /** Keys of the shipped map are pairwise distinct: no two agree in length and
      first two characters. */
  lemma ShippedKeysDistinct()
    ensures Distinct(MetaKeys(STANDARD_METADATA))
  {
    ShippedKeysListed();
    ShippedSignaturesComputed();
    ShippedSignaturesDistinct();
    DistinctByImage(SHIPPED_KEYS, Signature, ShippedSignatures);
  }

  /** Every shipped entry has a non-empty icon. */
  lemma ShippedIconsPresent()
    ensures forall i :: 0 <= i < |STANDARD_METADATA| ==> STANDARD_METADATA[i].1.icon != ""
  {
  }

  /** Every shipped key contains an ASCII capital letter. */
  lemma ShippedKeysHaveCapital()
    ensures forall i :: 0 <= i < |STANDARD_METADATA| ==> HasCapital(STANDARD_METADATA[i].0)
  {
    ShippedKeysListed();
    forall i | 0 <= i < |STANDARD_METADATA|
      ensures HasCapital(STANDARD_METADATA[i].0)
    {
      var key := SHIPPED_KEYS[i];
      assert STANDARD_METADATA[i].0 == key by {
        assert MetaKeys(STANDARD_METADATA)[i] == STANDARD_METADATA[i].0;
      }
      var at := if i == 3 then 8 else 0;
      assert at < |key| && IsAsciiUpper(key[at]);
    }
  }
}
