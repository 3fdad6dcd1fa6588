/** Turning stored locations into Beckn Location objects: a required geo and an optional address. */
module SanitizeLocationsModule {
  import opened Wrappers

  datatype Json =
    | Null
    | Bool(b: bool)
    | Num(x: real)
    | Str(s: string)
    | Arr(items: seq<Json>)
    | Obj(fields: map<string, Json>)

  datatype Coords = Coords(lat: real, lng: real)

  type Fields = map<string, Json>

  const VALID := {"addressCountry", "addressLocality", "addressRegion", "extendedAddress", "postalCode", "streetAddress"}

  const LEGACY: map<string, string> := map[
    "city" := "addressLocality", "state" := "addressRegion", "country" := "addressCountry",
    "areaCode" := "postalCode", "street" := "streetAddress"]

  /** The field an input field is written to, if any. */
  function Target(k: string): Option<string> {
    if k in VALID then Some(k) else if k in LEGACY then Some(LEGACY[k]) else None
  }

  function Text(raw: Fields, k: string): string {
    if k in raw && raw[k].Str? then raw[k].s else ""
  }

  /** The extended address built from door and building; "" when both are missing. */
  function DoorAndBuilding(raw: Fields): string {
    var door, building := Text(raw, "door"), Text(raw, "building");
    if door == "" then building else if building == "" then door else door + ", " + building
  }

  function Seed(raw: Fields): Fields {
    if DoorAndBuilding(raw) == "" then map[] else map["extendedAddress" := Str(DoorAndBuilding(raw))]
  }

  /** The loop over the fields, in a given iteration order. */
  function CleanIn(raw: Fields, order: seq<string>): Fields
    requires forall k :: k in order ==> k in raw
  {
    if order == [] then Seed(raw)
    else
      var k := order[|order| - 1];
      var before := CleanIn(raw, order[..|order| - 1]);
      match Target(k)
      case Some(v) => before[v := raw[k]]
      case None => before
  }

  /** An iteration order of a map: every key once. */
  ghost predicate IsOrder(order: seq<string>, raw: Fields) {
    && (forall k :: k in order <==> k in raw)
    && (forall i, j :: 0 <= i < j < |order| ==> order[i] != order[j])
  }

  ghost predicate HasSource(keys: seq<string>, v: string) {
    exists k :: k in keys && Target(k) == Some(v)
  }

  /** What a cleaned address holds, for the fields visited so far: each valid field once, taken from some field
      written to it, else from door and building. */
  ghost predicate IsCleaned(raw: Fields, visited: seq<string>, clean: Fields)
    requires forall k :: k in visited ==> k in raw
  {
    && (forall v :: v in clean <==> HasSource(visited, v) || v in Seed(raw))
    && (forall v :: v in clean && !HasSource(visited, v) ==> clean[v] == Seed(raw)[v])
    && (forall v :: v in clean && HasSource(visited, v) ==>
         exists k :: k in visited && Target(k) == Some(v) && clean[v] == raw[k])
  }

  lemma {:induction false} CleanInIsCleaned(raw: Fields, order: seq<string>)
    requires forall k :: k in order ==> k in raw
    ensures IsCleaned(raw, order, CleanIn(raw, order))
    ensures CleanIn(raw, order).Keys <= VALID
  {
    if order != [] {
      var k, init := order[|order| - 1], order[..|order| - 1];
      CleanInIsCleaned(raw, init);
      var before, after := CleanIn(raw, init), CleanIn(raw, order);
      assert forall x :: x in order <==> x in init || x == k;
      forall v ensures HasSource(order, v) <==> HasSource(init, v) || Target(k) == Some(v) {
      }
      forall v | v in after && HasSource(order, v)
        ensures exists x :: x in order && Target(x) == Some(v) && after[v] == raw[x]
      {
        if Target(k) == Some(v) {
          assert k in order && after[v] == raw[k];
        } else {
          var x :| x in init && Target(x) == Some(v) && before[v] == raw[x];
          assert x in order;
        }
      }
    }
  }

  /** Two fields written to the same target carry the same value. */
  ghost predicate NoConflict(raw: Fields) {
    forall j, k :: j in raw && k in raw && Target(j).Some? && Target(j) == Target(k) ==> raw[j] == raw[k]
  }

  /** Only a legacy field and its own target can compete. */
  lemma NoConflictMeans(raw: Fields)
    ensures NoConflict(raw) <==>
            forall k :: k in LEGACY && k in raw && LEGACY[k] in raw ==> raw[k] == raw[LEGACY[k]]
  {
    forall k | k in LEGACY ensures Target(k) == Target(LEGACY[k]) == Some(LEGACY[k]) {
      LegacyTarget(k);
    }
    forall j, k | j in raw && k in raw && Target(j).Some? && Target(j) == Target(k) && j != k
      ensures (j in LEGACY && k == LEGACY[j]) || (k in LEGACY && j == LEGACY[k])
    {
      OnlyOneLegacy(j, k);
    }
  }

  lemma LegacyTarget(k: string)
    requires k in LEGACY
    ensures k !in VALID && LEGACY[k] in VALID
  {
  }

  lemma OnlyOneLegacy(j: string, k: string)
    requires Target(j).Some? && Target(j) == Target(k) && j != k
    ensures j in VALID || k in VALID
  {
  }

  lemma SameForAllOrders(raw: Fields, a: seq<string>, b: seq<string>)
    requires NoConflict(raw) && IsOrder(a, raw) && IsOrder(b, raw)
    ensures CleanIn(raw, a) == CleanIn(raw, b)
  {
    CleanInIsCleaned(raw, a);
    CleanInIsCleaned(raw, b);
    var x, y := CleanIn(raw, a), CleanIn(raw, b);
    forall v ensures HasSource(a, v) <==> HasSource(b, v) {
    }
    assert x.Keys == y.Keys;
    forall v | v in x ensures x[v] == y[v] {
      if HasSource(a, v) {
        var j :| j in a && Target(j) == Some(v) && x[v] == raw[j];
        var k :| k in b && Target(k) == Some(v) && y[v] == raw[k];
      }
    }
  }

  /** Every map has an iteration order that ends with a chosen key. */
  lemma OrderEndingWith(raw: Fields, last: string) returns (order: seq<string>)
    requires last in raw
    ensures IsOrder(order, raw) && order[|order| - 1] == last
    decreases |raw|
  {
    var rest := raw - {last};
    if rest == map[] {
      order := [last];
      assert raw.Keys == rest.Keys + {last} == {last};
    } else {
      var k :| k in rest;
      assert |rest| < |raw| by { assert raw.Keys == rest.Keys + {last}; }
      var init := OrderEndingWith(rest, k);
      order := init + [last];
    }
  }

  /** The cleaned address does not depend on the iteration order exactly when no two fields compete for one
      target with different values. */
  lemma OrderIrrelevantIff(raw: Fields)
    ensures (forall a, b :: IsOrder(a, raw) && IsOrder(b, raw) ==> CleanIn(raw, a) == CleanIn(raw, b)) <==> NoConflict(raw)
  {
    if NoConflict(raw) {
      forall a, b | IsOrder(a, raw) && IsOrder(b, raw) ensures CleanIn(raw, a) == CleanIn(raw, b) {
        SameForAllOrders(raw, a, b);
      }
    } else {
      var j, k :| j in raw && k in raw && Target(j).Some? && Target(j) == Target(k) && raw[j] != raw[k];
      var a := OrderEndingWith(raw, j);
      var b := OrderEndingWith(raw, k);
      assert CleanIn(raw, a)[Target(j).value] == raw[j];
      assert CleanIn(raw, b)[Target(j).value] == raw[k];
    }
  }

  /** Two orders of one address with two results. */
  lemma CityAndLocality()
    ensures var raw := map["city" := Str("A"), "addressLocality" := Str("B")];
      CleanIn(raw, ["city", "addressLocality"]) != CleanIn(raw, ["addressLocality", "city"])
  {
    var raw := map["city" := Str("A"), "addressLocality" := Str("B")];
    var first, last := CleanIn(raw, ["city", "addressLocality"]), CleanIn(raw, ["addressLocality", "city"]);
    assert first["addressLocality"] == Str("B") && last["addressLocality"] == Str("A");
  }

  lemma CleanNext(raw: Fields, order: seq<string>, k: string)
    requires k in raw && forall x :: x in order ==> x in raw
    ensures var before, after := CleanIn(raw, order), CleanIn(raw, order + [k]);
      after == if Target(k).Some? then before[Target(k).value := raw[k]] else before
  {
    assert (order + [k])[..|order|] == order;
  }

  /** Each of the six valid fields of the input arrives under its own name, unless a legacy field is written to it;
      each legacy field arrives under its new name, unless that name is there too; nothing else arrives but the
      extended address made of door and building. */
  lemma FieldsArrive(raw: Fields, order: seq<string>, clean: Fields)
    requires IsOrder(order, raw) && clean == CleanIn(raw, order)
    ensures "addressLocality" in raw && "city" !in raw ==> Arrives(clean, "addressLocality", raw, "addressLocality")
    ensures "city" in raw && "addressLocality" !in raw ==> Arrives(clean, "addressLocality", raw, "city")
    ensures "addressRegion" in raw && "state" !in raw ==> Arrives(clean, "addressRegion", raw, "addressRegion")
    ensures "state" in raw && "addressRegion" !in raw ==> Arrives(clean, "addressRegion", raw, "state")
    ensures "addressCountry" in raw && "country" !in raw ==> Arrives(clean, "addressCountry", raw, "addressCountry")
    ensures "country" in raw && "addressCountry" !in raw ==> Arrives(clean, "addressCountry", raw, "country")
  {
    ArrivesFrom(raw, order, "addressLocality", "city");
    ArrivesFrom(raw, order, "addressRegion", "state");
    ArrivesFrom(raw, order, "addressCountry", "country");
  }

  lemma MoreFieldsArrive(raw: Fields, order: seq<string>, clean: Fields)
    requires IsOrder(order, raw) && clean == CleanIn(raw, order)
    ensures "postalCode" in raw && "areaCode" !in raw ==> Arrives(clean, "postalCode", raw, "postalCode")
    ensures "areaCode" in raw && "postalCode" !in raw ==> Arrives(clean, "postalCode", raw, "areaCode")
    ensures "streetAddress" in raw && "street" !in raw ==> Arrives(clean, "streetAddress", raw, "streetAddress")
    ensures "street" in raw && "streetAddress" !in raw ==> Arrives(clean, "streetAddress", raw, "street")
    ensures "extendedAddress" in raw ==> Arrives(clean, "extendedAddress", raw, "extendedAddress")
    ensures clean.Keys <= {"addressCountry", "addressLocality", "addressRegion", "extendedAddress", "postalCode", "streetAddress"}
  {
    ArrivesFrom(raw, order, "postalCode", "areaCode");
    ArrivesFrom(raw, order, "streetAddress", "street");
    OnlyOwnSource(raw, order, "extendedAddress");
    CleanInIsCleaned(raw, order);
  }

  predicate Arrives(clean: Fields, v: string, raw: Fields, k: string) {
    v in clean && k in raw && clean[v] == raw[k]
  }

  /** A field that two input fields are written to, one valid and one legacy. */
  lemma ArrivesFrom(raw: Fields, order: seq<string>, v: string, legacy: string)
    requires IsOrder(order, raw) && legacy in LEGACY && LEGACY[legacy] == v
    ensures v in raw && legacy !in raw ==> Arrives(CleanIn(raw, order), v, raw, v)
    ensures legacy in raw && v !in raw ==> Arrives(CleanIn(raw, order), v, raw, legacy)
  {
    CleanInIsCleaned(raw, order);
    LegacyTarget(legacy);
    forall k | Target(k) == Some(v) ensures k == v || k == legacy {
      SourcesOf(k, legacy);
    }
    assert Target(v) == Some(v) && Target(legacy) == Some(v);
    assert v in raw ==> HasSource(order, v);
    assert legacy in raw ==> HasSource(order, v);
  }

  lemma SourcesOf(k: string, legacy: string)
    requires legacy in LEGACY && Target(k) == Some(LEGACY[legacy])
    ensures k == LEGACY[legacy] || k == legacy
  {
  }

  lemma OnlyOwnSource(raw: Fields, order: seq<string>, v: string)
    requires IsOrder(order, raw) && v == "extendedAddress"
    ensures v in raw ==> Arrives(CleanIn(raw, order), v, raw, v)
  {
    CleanInIsCleaned(raw, order);
    forall k | Target(k) == Some(v) ensures k == v {
      NoLegacyForExtended(k);
    }
    assert v in VALID && Target(v) == Some(v);
    assert v in raw ==> HasSource(order, v);
  }

  lemma NoLegacyForExtended(k: string)
    requires Target(k) == Some("extendedAddress")
    ensures k == "extendedAddress"
  {
  }

  /** Without an extended address of its own, the address gets "door, building", or the one of them that is a
      non-empty text, or none. */
  lemma ExtendedFromParts(raw: Fields, order: seq<string>, clean: Fields)
    requires IsOrder(order, raw) && clean == CleanIn(raw, order) && "extendedAddress" !in raw
    ensures var door := if "door" in raw && raw["door"].Str? then raw["door"].s else "";
      var building := if "building" in raw && raw["building"].Str? then raw["building"].s else "";
      && (door != "" && building != "" ==>
           "extendedAddress" in clean && clean["extendedAddress"] == Str(door + ", " + building))
      && (door != "" && building == "" ==> "extendedAddress" in clean && clean["extendedAddress"] == Str(door))
      && (door == "" && building != "" ==> "extendedAddress" in clean && clean["extendedAddress"] == Str(building))
      && (door == "" && building == "" ==> "extendedAddress" !in clean)
  {
    CleanInIsCleaned(raw, order);
    forall k | k in order ensures Target(k) != Some("extendedAddress") {
      if Target(k) == Some("extendedAddress") {
        NoLegacyForExtended(k);
      }
    }
    assert !HasSource(order, "extendedAddress");
  }

  /** A possible outcome of the loop over the fields. */
  ghost predicate IsCleanAddress(raw: Fields, clean: Fields) {
    exists order :: IsOrder(order, raw) && clean == CleanIn(raw, order)
  }

  /** The range loop over an address: Go visits the fields in any order. */
  method CleanAddress(raw: Fields) returns (clean: Fields)
    ensures IsCleanAddress(raw, clean)
  {
    var door, building := Text(raw, "door"), Text(raw, "building");
    clean := map[];
    if door != "" || building != "" {
      var parts := "";
      if door != "" {
        parts := door;
      }
      if building != "" {
        if parts != "" {
          parts := parts + ", " + building;
        } else {
          parts := building;
        }
      }
      clean := clean["extendedAddress" := Str(parts)];
    }
    assert clean == Seed(raw);
    ghost var order := [];
    var remaining := raw.Keys;
    while remaining != {}
      invariant remaining <= raw.Keys
      invariant forall k :: k in order <==> k in raw && k !in remaining
      invariant forall i, j :: 0 <= i < j < |order| ==> order[i] != order[j]
      invariant clean == CleanIn(raw, order)
      decreases |remaining|
    {
      var k :| k in remaining;
      if k in VALID {
        clean := clean[k := raw[k]];
      } else if k in LEGACY {
        clean := clean[LEGACY[k] := raw[k]];
      }
      remaining := remaining - {k};
      CleanNext(raw, order, k);
      order := order + [k];
    }
    assert IsOrder(order, raw);
  }

  // ---- Locations ----

  /** The GeoJSON point of a position: [longitude, latitude] (section 3.1.1 of RFC 7946). */
  function Point(c: Coords): Json {
    Obj(map["type" := Str("Point"), "coordinates" := Arr([Num(c.lng), Num(c.lat)])])
  }

  /** The geo of a stored location: the stored value, else the parsed gps text. `scan` parses "lat,lng". */
  function Geo(scan: string -> Option<Coords>, loc: Fields): Option<Json> {
    if "geo" in loc then Some(loc["geo"])
    else if "gps" in loc && loc["gps"].Str? && loc["gps"].s != "" then
      match scan(loc["gps"].s)
      case Some(c) => Some(Point(c))
      case None => None
    else None
  }

  /** Locations that are not objects or have no geo are dropped. */
  predicate Kept(scan: string -> Option<Coords>, loc: Json) {
    loc.Obj? && Geo(scan, loc.fields).Some?
  }

  /** The output entry: the address is left out when nothing of it survived. */
  function Location(geo: Json, address: Fields): Json {
    Obj(if address == map[] then map["geo" := geo] else map["geo" := geo, "address" := Obj(address)])
  }

  /** A location is kept exactly when it is an object with a geo, or with a non-empty gps text that parses; the
      stored geo goes before the gps text. */
  lemma KeptExactly(scan: string -> Option<Coords>, loc: Json)
    ensures Kept(scan, loc) <==>
      loc.Obj? && ("geo" in loc.fields ||
                   ("gps" in loc.fields && loc.fields["gps"].Str? && loc.fields["gps"].s != "" &&
                    scan(loc.fields["gps"].s).Some?))
    ensures loc.Obj? && "geo" in loc.fields ==> Geo(scan, loc.fields) == Some(loc.fields["geo"])
  {
  }

  /** One possible result for a kept location. */
  ghost predicate IsCleanLocation(scan: string -> Option<Coords>, loc: Json, clean: Json)
    requires Kept(scan, loc)
  {
    var geo := Geo(scan, loc.fields).value;
    if "address" in loc.fields && loc.fields["address"].Obj? then
      exists address :: IsCleanAddress(loc.fields["address"].fields, address) && clean == Location(geo, address)
    else clean == Location(geo, map[])
  }

  /** One possible result for a list: the kept locations in order, each cleaned. */
  ghost predicate IsSanitized(scan: string -> Option<Coords>, locs: seq<Json>, out: seq<Json>) {
    if locs == [] then out == []
    else
      var loc, before := locs[|locs| - 1], locs[..|locs| - 1];
      if Kept(scan, loc) then
        out != [] && IsCleanLocation(scan, loc, out[|out| - 1]) && IsSanitized(scan, before, out[..|out| - 1])
      else IsSanitized(scan, before, out)
  }

  /** The loop body: the cleaned location, or None where the source skips to the next one. */
  method CleanLocation(scan: string -> Option<Coords>, l: Json) returns (result: Option<Json>)
    ensures result.Some? <==> Kept(scan, l)
    ensures result.Some? ==> IsCleanLocation(scan, l, result.value)
  {
    if !l.Obj? {
      return None;
    }
    var loc := l.fields;
    var clean: Fields := map[];
    if "geo" in loc {
      clean := clean["geo" := loc["geo"]];
    } else if "gps" in loc && loc["gps"].Str? && loc["gps"].s != "" {
      var position := scan(loc["gps"].s);
      if position.Some? {
        clean := clean["geo" := Point(position.value)];
      }
    }
    if "geo" !in clean {
      return None;
    }
    ghost var geo := Geo(scan, loc).value;
    assert clean == map["geo" := geo];
    if "address" in loc && loc["address"].Obj? {
      var address := CleanAddress(loc["address"].fields);
      if |address| > 0 {
        clean := clean["address" := Obj(address)];
      }
      assert Obj(clean) == Location(geo, address);
    }
    return Some(Obj(clean));
  }

  method SanitizeLocations(scan: string -> Option<Coords>, locs: seq<Json>) returns (out: seq<Json>)
    ensures IsSanitized(scan, locs, out)
  {
    out := [];
    for i := 0 to |locs|
      invariant IsSanitized(scan, locs[..i], out)
    {
      assert locs[..i + 1][..i] == locs[..i];
      var clean := CleanLocation(scan, locs[i]);
      if clean.Some? {
        ghost var before := out;
        out := out + [clean.value];
        assert out[..|out| - 1] == before;
      }
    }
    assert locs[..|locs|] == locs;
  }

  /** A Location object: geo, and at most an address with at least one of the six valid fields. */
  predicate IsLocation(l: Json) {
    && l.Obj? && "geo" in l.fields && l.fields.Keys <= {"geo", "address"}
    && ("address" in l.fields ==>
         && l.fields["address"].Obj? && l.fields["address"].fields != map[]
         && l.fields["address"].fields.Keys <= VALID)
  }

  lemma CleanIsLocation(scan: string -> Option<Coords>, loc: Json, clean: Json)
    requires Kept(scan, loc) && IsCleanLocation(scan, loc, clean)
    ensures IsLocation(clean) && Kept(scan, clean)
    ensures clean.fields["geo"] == Geo(scan, loc.fields).value
  {
    if "address" in loc.fields && loc.fields["address"].Obj? {
      var raw := loc.fields["address"].fields;
      var address :| IsCleanAddress(raw, address) && clean == Location(Geo(scan, loc.fields).value, address);
      var order :| IsOrder(order, raw) && address == CleanIn(raw, order);
      CleanInIsCleaned(raw, order);
    }
  }

  /** What a cleaned location carries over: the stored geo, and the cleaned address, left out only when the input has
      none or nothing of it survived. */
  lemma CleanCarriesOver(scan: string -> Option<Coords>, loc: Json, clean: Json)
    requires Kept(scan, loc) && IsCleanLocation(scan, loc, clean)
    ensures clean.Obj? && "geo" in clean.fields && ("geo" in loc.fields ==> clean.fields["geo"] == loc.fields["geo"])
    ensures "address" in loc.fields && loc.fields["address"].Obj? ==>
      var raw := loc.fields["address"].fields;
      if "address" in clean.fields
      then clean.fields["address"].Obj? && IsCleanAddress(raw, clean.fields["address"].fields)
      else IsCleanAddress(raw, map[])
    ensures "address" !in loc.fields || !loc.fields["address"].Obj? ==> "address" !in clean.fields
  {
    if "address" in loc.fields && loc.fields["address"].Obj? {
      var raw := loc.fields["address"].fields;
      var address :| IsCleanAddress(raw, address) && clean == Location(Geo(scan, loc.fields).value, address);
      assert "address" in clean.fields <==> address != map[];
    }
  }

  /** The positions of the kept locations, in increasing order. */
  function KeptAt(scan: string -> Option<Coords>, locs: seq<Json>): (at: seq<nat>)
    ensures forall i :: 0 <= i < |at| ==> at[i] < |locs| && Kept(scan, locs[at[i]])
    ensures forall i, j :: 0 <= i < j < |at| ==> at[i] < at[j]
  {
    if locs == [] then []
    else
      var before := KeptAt(scan, locs[..|locs| - 1]);
      if Kept(scan, locs[|locs| - 1]) then before + [|locs| - 1] else before
  }

  lemma {:induction false} KeptAtComplete(scan: string -> Option<Coords>, locs: seq<Json>, n: nat)
    requires n < |locs| && Kept(scan, locs[n])
    ensures n in KeptAt(scan, locs)
  {
    if n < |locs| - 1 {
      KeptAtComplete(scan, locs[..|locs| - 1], n);
    }
  }

  /** The output is the kept input, in order, entry by entry, and every entry is a Location object. */
  lemma {:induction false} OrderPreserved(scan: string -> Option<Coords>, locs: seq<Json>, out: seq<Json>)
    requires IsSanitized(scan, locs, out)
    ensures var at := KeptAt(scan, locs);
      && |out| == |at|
      && (forall i :: 0 <= i < |out| ==> IsLocation(out[i]) && IsCleanLocation(scan, locs[at[i]], out[i]))
  {
    if locs != [] {
      var loc := locs[|locs| - 1];
      if Kept(scan, loc) {
        OrderPreserved(scan, locs[..|locs| - 1], out[..|out| - 1]);
        CleanIsLocation(scan, loc, out[|out| - 1]);
      } else {
        OrderPreserved(scan, locs[..|locs| - 1], out);
      }
    }
  }

  /** A location without geo whose gps text parses becomes the point [longitude, latitude]. */
  lemma GpsBecomesPoint(scan: string -> Option<Coords>, loc: Json, clean: Json, c: Coords)
    requires loc.Obj? && "geo" !in loc.fields && "gps" in loc.fields
    requires loc.fields["gps"].Str? && loc.fields["gps"].s != "" && scan(loc.fields["gps"].s) == Some(c)
    requires IsCleanLocation(scan, loc, clean)
    ensures IsLocation(clean)
    ensures clean.fields["geo"] == Obj(map["type" := Str("Point"), "coordinates" := Arr([Num(c.lng), Num(c.lat)])])
  {
    CleanIsLocation(scan, loc, clean);
  }

  /** Cleaning an address of valid fields only changes nothing, in any order. */
  lemma {:induction false} CleanAgain(raw: Fields, order: seq<string>)
    requires raw.Keys <= VALID && IsOrder(order, raw)
    ensures CleanIn(raw, order) == raw
  {
    CleanInIsCleaned(raw, order);
    NothingToSeed(raw);
    ValidIsOwnSource(raw, order);
    assert CleanIn(raw, order).Keys == raw.Keys;
  }

  lemma NothingToSeed(raw: Fields)
    requires raw.Keys <= VALID
    ensures Seed(raw) == map[]
  {
    assert "door" !in VALID && "building" !in VALID;
  }

  lemma ValidIsOwnSource(raw: Fields, order: seq<string>)
    requires raw.Keys <= VALID && IsOrder(order, raw)
    ensures forall v :: HasSource(order, v) <==> v in raw
    ensures forall k, v :: k in order && Target(k) == Some(v) ==> k == v
  {
    forall k | k in raw ensures Target(k) == Some(k) {
      assert k in VALID;
    }
  }

  /** The address fields of a Location object; empty when it has no address. */
  function AddressOf(l: Json): Fields
    requires l.Obj?
  {
    if "address" in l.fields && l.fields["address"].Obj? then l.fields["address"].fields else map[]
  }

  lemma LocationForm(l: Json)
    requires IsLocation(l)
    ensures l == Location(l.fields["geo"], AddressOf(l))
  {
    var built := Location(l.fields["geo"], AddressOf(l)).fields;
    assert built.Keys == if "address" in l.fields then {"geo", "address"} else {"geo"};
    assert l.fields.Keys == built.Keys;
    assert "address" in l.fields ==> l.fields["address"] == Obj(AddressOf(l));
    assert l.fields == built;
  }

  lemma LocationUnchanged(scan: string -> Option<Coords>, l: Json, clean: Json)
    requires IsLocation(l) && IsCleanLocation(scan, l, clean)
    ensures clean == l
  {
    LocationForm(l);
    var raw := AddressOf(l);
    if "address" in l.fields {
      var address :| IsCleanAddress(raw, address) && clean == Location(l.fields["geo"], address);
      var order :| IsOrder(order, raw) && address == CleanIn(raw, order);
      CleanAgain(raw, order);
    }
  }

  lemma {:induction false} LocationsUnchanged(scan: string -> Option<Coords>, out: seq<Json>, again: seq<Json>)
    requires forall i :: 0 <= i < |out| ==> IsLocation(out[i])
    requires IsSanitized(scan, out, again)
    ensures again == out
  {
    if out != [] {
      var l := out[|out| - 1];
      assert Kept(scan, l);
      LocationUnchanged(scan, l, again[|again| - 1]);
      LocationsUnchanged(scan, out[..|out| - 1], again[..|again| - 1]);
      assert out == out[..|out| - 1] + [l] && again == again[..|again| - 1] + [l];
    }
  }

  /** Sanitising twice gives the same as once, whatever the iteration orders. */
  lemma Idempotent(scan: string -> Option<Coords>, locs: seq<Json>, out: seq<Json>, again: seq<Json>)
    requires IsSanitized(scan, locs, out) && IsSanitized(scan, out, again)
    ensures again == out
  {
    OrderPreserved(scan, locs, out);
    LocationsUnchanged(scan, out, again);
  }

  ghost predicate NoConflictAt(loc: Json) {
    loc.Obj? && "address" in loc.fields && loc.fields["address"].Obj? ==> NoConflict(loc.fields["address"].fields)
  }

  /** Where no fields compete, the whole result is independent of the iteration orders. */
  lemma {:induction false} ResultUnique(scan: string -> Option<Coords>, locs: seq<Json>, a: seq<Json>, b: seq<Json>)
    requires forall i :: 0 <= i < |locs| ==> NoConflictAt(locs[i])
    requires IsSanitized(scan, locs, a) && IsSanitized(scan, locs, b)
    ensures a == b
  {
    if locs != [] {
      var loc, before := locs[|locs| - 1], locs[..|locs| - 1];
      if Kept(scan, loc) {
        ResultUnique(scan, before, a[..|a| - 1], b[..|b| - 1]);
        LocationUnique(scan, loc, a[|a| - 1], b[|b| - 1]);
        assert a == a[..|a| - 1] + [a[|a| - 1]] && b == b[..|b| - 1] + [b[|b| - 1]];
      } else {
        ResultUnique(scan, before, a, b);
      }
    }
  }

  lemma LocationUnique(scan: string -> Option<Coords>, loc: Json, a: Json, b: Json)
    requires Kept(scan, loc) && NoConflictAt(loc)
    requires IsCleanLocation(scan, loc, a) && IsCleanLocation(scan, loc, b)
    ensures a == b
  {
    if "address" in loc.fields && loc.fields["address"].Obj? {
      var raw := loc.fields["address"].fields;
      forall x, y | IsCleanAddress(raw, x) && IsCleanAddress(raw, y) ensures x == y {
        var p :| IsOrder(p, raw) && x == CleanIn(raw, p);
        var q :| IsOrder(q, raw) && y == CleanIn(raw, q);
        SameForAllOrders(raw, p, q);
      }
    }
  }
}
