/** What POST /places_search promises, proved about its specification. */
module PlaceSearchFacts {
  import opened Json
  import opened Models
  import opened Storage
  import opened Http
  import opened PlaceSearch
  import opened Listing
  import StorageFacts

  // ---- the state stage ----

  /** Flattening two lists of parts one after the other concatenates their flattenings. */
  lemma {:induction false} FlattenConcat(xs: seq<seq<Entity>>, ys: seq<seq<Entity>>)
    ensures Flatten(xs + ys) == Flatten(xs) + Flatten(ys)
  {
    if ys == [] {
      assert xs + ys == xs;
    } else {
      var init := ys[..|ys| - 1];
      assert (xs + ys)[..|xs + ys| - 1] == xs + init;
      assert (xs + ys)[|xs + ys| - 1] == ys[|ys| - 1];
      FlattenConcat(xs, init);
    }
  }

  /** Mapping over two lists one after the other maps each and concatenates the results. */
  lemma MapSeqConcat<A, B>(f: A -> B, a: seq<A>, b: seq<A>)
    ensures MapSeq(f, a + b) == MapSeq(f, a) + MapSeq(f, b)
  {
    var whole, left, right := MapSeq(f, a + b), MapSeq(f, a), MapSeq(f, b);
    forall i | 0 <= i < |whole| ensures whole[i] == (left + right)[i] {
      if i < |a| {
        assert (a + b)[i] == a[i] && (left + right)[i] == left[i];
      } else {
        assert (a + b)[i] == b[i - |a|] && (left + right)[i] == right[i - |a|];
      }
    }
  }

  /** The state stage of two id lists one after the other is the two stages concatenated. */
  lemma StateStageConcat(s: Store, a: seq<Value>, b: seq<Value>)
    ensures StateStage(s, a + b) == StateStage(s, a) + StateStage(s, b)
  {
    MapSeqConcat(StatePlacesIn(s), a, b);
    FlattenConcat(StateParts(s, a), StateParts(s, b));
  }

  /** One state id on its own contributes its places. */
  lemma StateStageSingle(s: Store, v: Value)
    ensures StateStage(s, [v]) == StatePlaces(s, v)
  {
    var parts := StateParts(s, [v]);
    assert parts == [StatePlaces(s, v)];
    assert parts[..|parts| - 1] == [];
    assert Flatten(parts) == Flatten([]) + StatePlaces(s, v);
  }

  /** A repeated list of state ids repeats its places: the stage does not remove duplicates. */
  lemma StateStageRepeats(s: Store, ids: seq<Value>)
    ensures StateStage(s, ids + ids) == StateStage(s, ids) + StateStage(s, ids)
    ensures StateStage(s, ids) != [] ==> !NoDup(StateStage(s, ids + ids))
  {
    StateStageConcat(s, ids, ids);
    var once := StateStage(s, ids);
    if once != [] {
      assert (once + once)[0] == (once + once)[|once|];
    }
  }

  /** A state id that names no State contributes nothing, wherever it stands in the list. */
  lemma StateStageSkipsUnknown(s: Store, a: seq<Value>, v: Value, b: seq<Value>)
    requires s.Lookup(State, v).None?
    ensures StateStage(s, a + [v] + b) == StateStage(s, a + b)
  {
    StateStageConcat(s, a + [v], b);
    StateStageConcat(s, a, [v]);
    StateStageConcat(s, a, b);
    StateStageSingle(s, v);
  }

  lemma {:induction false} PlacesOfCitiesMembers(s: Store, cs: seq<Entity>)
    ensures forall p :: p in PlacesOfCities(s, cs) <==> exists j :: 0 <= j < |cs| && p in s.PlacesOf(cs[j].id)
  {
    if cs != [] {
      var init := cs[..|cs| - 1];
      PlacesOfCitiesMembers(s, init);
      forall p ensures p in PlacesOfCities(s, cs) <==> exists j :: 0 <= j < |cs| && p in s.PlacesOf(cs[j].id) {
        if j :| 0 <= j < |cs| && p in s.PlacesOf(cs[j].id) {
          if j < |cs| - 1 {
            assert init[j] == cs[j];
          }
        }
        if p in PlacesOfCities(s, init) {
          var j :| 0 <= j < |init| && p in s.PlacesOf(init[j].id);
          assert cs[j] == init[j];
        }
      }
    }
  }

  /** A place of the cities of a State is a stored Place of one of them. */
  lemma StatePlaceSound(s: Store, state: Entity, p: Entity)
    requires s.Valid()
    requires p in PlacesOfCities(s, s.CitiesOf(state.id))
    ensures s.Get(Place, p.id) == Some(p)
    ensures exists c: Entity :: s.Get(City, c.id) == Some(c) && RefersTo(c, "state_id", state.id) && RefersTo(p, "city_id", c.id)
  {
    var cs := s.CitiesOf(state.id);
    PlacesOfCitiesMembers(s, cs);
    var j :| 0 <= j < |cs| && p in s.PlacesOf(cs[j].id);
    StorageFacts.ChildrenAreReferrers(s, City, "state_id", state.id);
    StorageFacts.ChildrenAreReferrers(s, Place, "city_id", cs[j].id);
    assert cs[j] in cs;
  }

  /** A stored Place of a stored City of a State is among the places of the State's cities. */
  lemma StatePlaceComplete(s: Store, state: Entity, c: Entity, p: Entity)
    requires s.Valid()
    requires s.Get(City, c.id) == Some(c) && RefersTo(c, "state_id", state.id)
    requires s.Get(Place, p.id) == Some(p) && RefersTo(p, "city_id", c.id)
    ensures p in PlacesOfCities(s, s.CitiesOf(state.id))
  {
    var cs := s.CitiesOf(state.id);
    StorageFacts.ChildrenAreReferrers(s, City, "state_id", state.id);
    StorageFacts.ChildrenAreReferrers(s, Place, "city_id", c.id);
    assert c in cs;
    var j :| 0 <= j < |cs| && cs[j] == c;
    PlacesOfCitiesMembers(s, cs);
    assert p in s.PlacesOf(cs[j].id);
  }

  /** A known state id contributes exactly the stored Places whose City belongs to that
      State; an unknown one contributes nothing. */
  lemma StatePlacesMembers(s: Store, v: Value)
    requires s.Valid()
    ensures s.Lookup(State, v).None? ==> StatePlaces(s, v) == []
    ensures s.Lookup(State, v).Some? ==> forall p: Entity :: p in StatePlaces(s, v) <==>
      s.Get(Place, p.id) == Some(p) &&
      exists c: Entity :: s.Get(City, c.id) == Some(c) && RefersTo(c, "state_id", s.Lookup(State, v).value.id) && RefersTo(p, "city_id", c.id)
  {
    if s.Lookup(State, v).Some? {
      var state := s.Lookup(State, v).value;
      forall p: Entity ensures p in StatePlaces(s, v) <==>
        s.Get(Place, p.id) == Some(p) &&
        exists c: Entity :: s.Get(City, c.id) == Some(c) && RefersTo(c, "state_id", state.id) && RefersTo(p, "city_id", c.id)
      {
        if p in StatePlaces(s, v) {
          StatePlaceSound(s, state, p);
        }
        if s.Get(Place, p.id) == Some(p) &&
           exists c: Entity :: s.Get(City, c.id) == Some(c) && RefersTo(c, "state_id", state.id) && RefersTo(p, "city_id", c.id) {
          var c: Entity :| s.Get(City, c.id) == Some(c) && RefersTo(c, "state_id", state.id) && RefersTo(p, "city_id", c.id);
          StatePlaceComplete(s, state, c, p);
        }
      }
    }
  }

  /** A place is in the flattening exactly when it is in one of the parts. */
  lemma {:induction false} FlattenMembers(parts: seq<seq<Entity>>)
    ensures forall p :: p in Flatten(parts) <==> exists i :: 0 <= i < |parts| && p in parts[i]
  {
    if parts != [] {
      var init := parts[..|parts| - 1];
      FlattenMembers(init);
      forall p ensures p in Flatten(parts) <==> exists i :: 0 <= i < |parts| && p in parts[i] {
        if i :| 0 <= i < |parts| && p in parts[i] {
          if i < |parts| - 1 {
            assert init[i] == parts[i];
          }
        }
        if p in Flatten(init) {
          var i :| 0 <= i < |init| && p in init[i];
          assert parts[i] == init[i];
        }
      }
    }
  }

  /** A place is in the state stage exactly when some listed state id contributes it. */
  lemma StateStageMembers(s: Store, ids: seq<Value>)
    ensures forall p :: p in StateStage(s, ids) <==> exists i :: 0 <= i < |ids| && p in StatePlaces(s, ids[i])
  {
    var parts := StateParts(s, ids);
    FlattenMembers(parts);
    assert forall i :: 0 <= i < |ids| ==> parts[i] == StatePlaces(s, ids[i]);
  }

  // ---- the city stage ----

  /** Appending the new places of `ps` keeps `acc` as a prefix, adds exactly the places of
      `ps` not yet listed, and never creates a duplicate. */
  lemma {:induction false} AppendNewFacts(acc: seq<Entity>, ps: seq<Entity>)
    ensures |acc| <= |AppendNew(acc, ps)| && AppendNew(acc, ps)[..|acc|] == acc
    ensures forall p :: p in AppendNew(acc, ps) <==> p in acc || p in ps
    ensures NoDup(acc) ==> NoDup(AppendNew(acc, ps))
  {
    if ps != [] {
      var init := ps[..|ps| - 1];
      var last := ps[|ps| - 1];
      AppendNewFacts(acc, init);
      var r := AppendNew(acc, init);
      assert forall p :: p in ps <==> p in init || p == last by {
        assert ps == init + [last];
      }
      if last !in r {
        assert (r + [last])[..|acc|] == r[..|acc|];
        if NoDup(r) {
          forall i, j | 0 <= i < j < |r + [last]| ensures (r + [last])[i] != (r + [last])[j] {
            if j == |r| {
              assert (r + [last])[i] == r[i];
            } else {
              assert (r + [last])[i] == r[i] && (r + [last])[j] == r[j];
            }
          }
        }
      }
    }
  }

  /** The city stage keeps the state stage's list as a prefix and never creates a
      duplicate. */
  lemma {:induction false} CityStageExtends(s: Store, ids: seq<Value>, acc: seq<Entity>)
    ensures |acc| <= |CityStage(s, ids, acc)| && CityStage(s, ids, acc)[..|acc|] == acc
    ensures NoDup(acc) ==> NoDup(CityStage(s, ids, acc))
  {
    if ids != [] {
      CityStageExtends(s, ids[..|ids| - 1], acc);
      var r := CityStage(s, ids[..|ids| - 1], acc);
      AppendNewFacts(r, CityPlaces(s, ids[|ids| - 1]));
      assert AppendNew(r, CityPlaces(s, ids[|ids| - 1]))[..|acc|] == r[..|acc|];
    }
  }

  /** Every element of `r` from position `n` on differs from every element before it: the
      elements appended after the first `n` duplicate nothing. */
  predicate AddsNoDuplicate(r: seq<Entity>, n: int) {
    forall i, j :: 0 <= j < i < |r| && n <= i ==> r[i] != r[j]
  }

  /** The places `AppendNew` adds to `acc` duplicate nothing, even when `acc` itself holds
      duplicates. */
  lemma {:induction false} AppendNewAddsNoDuplicate(acc: seq<Entity>, ps: seq<Entity>)
    ensures AddsNoDuplicate(AppendNew(acc, ps), |acc|)
  {
    if ps != [] {
      var last := ps[|ps| - 1];
      AppendNewAddsNoDuplicate(acc, ps[..|ps| - 1]);
      var r := AppendNew(acc, ps[..|ps| - 1]);
      if last !in r {
        var r' := r + [last];
        forall i, j | 0 <= j < i < |r'| && |acc| <= i ensures r'[i] != r'[j] {
          if i == |r| {
            assert r'[j] == r[j];
          } else {
            assert r'[i] == r[i] && r'[j] == r[j];
          }
        }
      }
    }
  }

  /** The city stage never introduces a duplicate: each place it appends to the state stage's
      list differs from every place listed before it, whatever that list holds. */
  lemma {:induction false} CityStageAddsNoDuplicate(s: Store, ids: seq<Value>, acc: seq<Entity>)
    ensures AddsNoDuplicate(CityStage(s, ids, acc), |acc|)
  {
    if ids != [] {
      var init := ids[..|ids| - 1];
      CityStageAddsNoDuplicate(s, init, acc);
      CityStageExtends(s, init, acc);
      var r := CityStage(s, init, acc);
      var ps := CityPlaces(s, ids[|ids| - 1]);
      AppendNewFacts(r, ps);
      AppendNewAddsNoDuplicate(r, ps);
      var r' := AppendNew(r, ps);
      forall i, j | 0 <= j < i < |r'| && |acc| <= i ensures r'[i] != r'[j] {
        if i < |r| {
          assert r'[i] == r[i] && r'[j] == r[j];
        }
      }
    }
  }

  /** A place is in the city stage's list exactly when it was listed before or some listed
      city id contributes it. */
  lemma {:induction false} CityStageMembers(s: Store, ids: seq<Value>, acc: seq<Entity>)
    ensures forall p :: p in CityStage(s, ids, acc) <==> p in acc || exists i :: 0 <= i < |ids| && p in CityPlaces(s, ids[i])
  {
    if ids != [] {
      var init := ids[..|ids| - 1];
      CityStageMembers(s, init, acc);
      AppendNewFacts(CityStage(s, init, acc), CityPlaces(s, ids[|ids| - 1]));
      forall p ensures p in CityStage(s, ids, acc) <==> p in acc || exists i :: 0 <= i < |ids| && p in CityPlaces(s, ids[i]) {
        if i :| 0 <= i < |ids| && p in CityPlaces(s, ids[i]) {
          if i < |ids| - 1 {
            assert init[i] == ids[i];
          }
        }
        if exists i :: 0 <= i < |init| && p in CityPlaces(s, init[i]) {
          var i :| 0 <= i < |init| && p in CityPlaces(s, init[i]);
          assert ids[i] == init[i];
        }
      }
    }
  }

  /** A known city id contributes exactly the stored Places of that City. */
  lemma CityPlacesMembers(s: Store, v: Value)
    requires s.Valid()
    ensures s.Lookup(City, v).None? ==> CityPlaces(s, v) == []
    ensures s.Lookup(City, v).Some? ==> forall p: Entity :: p in CityPlaces(s, v) <==>
      s.Get(Place, p.id) == Some(p) && RefersTo(p, "city_id", s.Lookup(City, v).value.id)
  {
    if s.Lookup(City, v).Some? {
      StorageFacts.ChildrenAreReferrers(s, Place, "city_id", s.Lookup(City, v).value.id);
    }
  }

  // ---- the amenity stage ----

  /** `ys` lists some of the elements of `xs`, in their order in `xs`. */
  ghost predicate SubsequenceOf(ys: seq<Entity>, xs: seq<Entity>) {
    exists idx: seq<int> ::
      && |idx| == |ys|
      && (forall i :: 0 <= i < |idx| ==> 0 <= idx[i] < |xs| && ys[i] == xs[idx[i]])
      && (forall i, j :: 0 <= i < j < |idx| ==> idx[i] < idx[j])
  }

  /** The positions in `cands` of the places the amenity stage keeps, in increasing order. */
  lemma {:induction false} AmenityStageIndices(s: Store, cands: seq<Entity>, ams: seq<Option<Entity>>) returns (idx: seq<int>)
    ensures |idx| == |AmenityStage(s, cands, ams)|
    ensures forall i :: 0 <= i < |idx| ==> 0 <= idx[i] < |cands| && AmenityStage(s, cands, ams)[i] == cands[idx[i]]
    ensures forall i, j :: 0 <= i < j < |idx| ==> idx[i] < idx[j]
  {
    if cands == [] {
      idx := [];
    } else {
      var init, last := cands[..|cands| - 1], cands[|cands| - 1];
      var prev := AmenityStageIndices(s, init, ams);
      var kept := AmenityStage(s, init, ams);
      if HasAll(s, last, ams) {
        assert AmenityStage(s, cands, ams) == kept + [last];
        idx := prev + [|cands| - 1];
        forall i | 0 <= i < |idx| ensures 0 <= idx[i] < |cands| && AmenityStage(s, cands, ams)[i] == cands[idx[i]] {
          if i < |prev| {
            assert idx[i] == prev[i] && init[prev[i]] == cands[prev[i]];
          }
        }
      } else {
        assert AmenityStage(s, cands, ams) == kept;
        idx := prev;
        forall i | 0 <= i < |idx| ensures 0 <= idx[i] < |cands| && AmenityStage(s, cands, ams)[i] == cands[idx[i]] {
          assert init[prev[i]] == cands[prev[i]];
        }
      }
    }
  }

  /** The amenity stage keeps a candidate exactly when it links every requested amenity, and
      keeps the candidates' order. */
  lemma {:induction false} AmenityStageFilters(s: Store, cands: seq<Entity>, ams: seq<Option<Entity>>)
    ensures forall p :: p in AmenityStage(s, cands, ams) <==> p in cands && HasAll(s, p, ams)
    ensures SubsequenceOf(AmenityStage(s, cands, ams), cands)
  {
    if cands != [] {
      var init := cands[..|cands| - 1];
      AmenityStageFilters(s, init, ams);
      assert forall p :: p in cands <==> p in init || p == cands[|cands| - 1] by {
        assert cands == init + [cands[|cands| - 1]];
      }
    }
    var idx := AmenityStageIndices(s, cands, ams);
  }

  /** An amenity id that names no Amenity empties the amenity stage. */
  lemma {:induction false} AmenityStageUnknown(s: Store, cands: seq<Entity>, ams: seq<Option<Entity>>, k: int)
    requires 0 <= k < |ams| && ams[k].None?
    ensures AmenityStage(s, cands, ams) == []
  {
    if cands != [] {
      AmenityStageUnknown(s, cands[..|cands| - 1], ams, k);
      assert !HasAll(s, cands[|cands| - 1], ams);
    }
  }

  /** In a well-formed store a Place links every requested amenity exactly when every
      requested id is a string naming a stored Amenity and the Place's links hold it. */
  lemma HasAllMeans(s: Store, p: Entity, ids: seq<Value>)
    requires s.Valid()
    ensures HasAll(s, p, Lookups(s, ids)) <==>
      forall i :: 0 <= i < |ids| ==> ids[i].Str? && s.Get(Amenity, ids[i].s).Some? && ids[i].s in p.amenityIds
  {
    var ams := Lookups(s, ids);
    forall i | 0 <= i < |ids| && ams[i].Some?
      ensures ams[i].value in s.AmenitiesOf(p) <==> ids[i].s in p.amenityIds
    {
      StorageFacts.GetReturnsRequested(s, Amenity, ids[i].s);
      StorageFacts.LinkedIffListed(s, p, ams[i].value);
    }
  }

  // ---- the whole search ----

  /** With no body content or no truthy criterion the answer lists every Place, one record
      each, with nothing removed. */
  lemma SearchWithoutCriteria(s: Store, data: Attrs)
    requires s.Valid() && NoCriteria(data)
    ensures Search(s, Some(data)).Ok?
    ensures var rs := Search(s, Some(data)).payload.records;
      && |rs| == s.Count(Some(Place))
      && (forall e: Entity :: s.Get(Place, e.id) == Some(e) ==> ToDict(e) in rs)
      && (forall d :: d in rs ==> exists e: Entity :: s.Get(Place, e.id) == Some(e) && d == ToDict(e))
  {
    assert Search(s, Some(data)) == Ok(Records(KindDicts(s, Place)));
  }

  /** With a truthy `amenities` criterion naming some id that is no Amenity, the route
      fails when the location stages found nothing and answers the empty list otherwise; the
      intended route always answers the empty list. */
  lemma SearchUnknownAmenity(s: Store, data: Attrs, k: int)
    requires !NoCriteria(data) && !Malformed(data)
    requires Truthy(Field(data, "amenities"))
    requires 0 <= k < |Criterion(Field(data, "amenities")).value|
    requires s.Lookup(Amenity, Criterion(Field(data, "amenities")).value[k]).None?
    ensures Search(s, Some(data)) == if Located(s, data) == [] then ServerError else Ok(Records([]))
    ensures SearchIntended(s, Some(data)) == Ok(Records([]))
  {
    var ams := Lookups(s, Criterion(Field(data, "amenities")).value);
    AmenityStageUnknown(s, Candidates(s, Located(s, data)), ams, k);
  }

  /** In the intended route, when the location criteria find nothing (or there are none) and
      `amenities` is truthy, the amenity filter runs over every stored Place: the answer holds
      the record of every stored Place that links every requested amenity. */
  lemma SearchFallback(s: Store, data: Attrs)
    requires s.Valid()
    requires !Malformed(data) && FallsBack(s, data)
    ensures SearchIntended(s, Some(data)).Ok?
    ensures var rs := SearchIntended(s, Some(data)).payload.records;
      var ams := Lookups(s, Criterion(Field(data, "amenities")).value);
      forall p: Entity :: Projected(p) in rs <== s.Get(Place, p.id) == Some(p) && HasAll(s, p, ams)
  {
    var ams := Lookups(s, Criterion(Field(data, "amenities")).value);
    var all := s.Values(Some(Place));
    assert Candidates(s, Located(s, data)) == all;
    var found := AmenityStage(s, all, ams);
    assert Found(s, data) == found;
    assert !NoCriteria(data);
    var rs := Project(found);
    assert SearchIntended(s, Some(data)) == Ok(Records(rs));
    AmenityStageFilters(s, all, ams);
    StorageFacts.GetAgreesWithAll(s, Place);
    forall p: Entity | s.Get(Place, p.id) == Some(p) && HasAll(s, p, ams) ensures Projected(p) in rs {
      var i :| 0 <= i < |found| && found[i] == p;
      assert rs[i] == Projected(p);
    }
  }

  /** The route as written and the intended route give different answers exactly when the
      amenity stage falls back to every Place: there the route fails, and the intended route
      answers the records of the stored Places that link every requested amenity. */
  lemma SearchDiverges(s: Store, body: Body)
    requires s.Valid()
    ensures Search(s, body) != SearchIntended(s, body) <==>
      body.Some? && !Malformed(body.value) && FallsBack(s, body.value)
    ensures body.Some? && !Malformed(body.value) && FallsBack(s, body.value) ==>
      Search(s, body) == ServerError && SearchIntended(s, body).Ok?
  {
    if body.Some? && !Malformed(body.value) && FallsBack(s, body.value) {
      SearchFallback(s, body.value);
    }
  }

  /** A search by amenities alone always fails: with no location criterion nothing is
      located, so the amenity stage falls back to every Place. */
  lemma AmenitiesOnlyFails(s: Store, ids: seq<Value>)
    requires ids != []
    ensures Search(s, Some(map["amenities" := Arr(ids)])) == ServerError
  {
    var data := map["amenities" := Arr(ids)];
    assert Field(data, "states") == Null && Field(data, "cities") == Null;
    assert Truthy(Field(data, "amenities")) && !NoCriteria(data) && !Malformed(data);
    assert StateStage(s, []) == [];
    assert Located(s, data) == CityStage(s, [], []) == [];
  }

  /** Every place the state stage lists is a stored Place. */
  lemma StateStageStored(s: Store, ids: seq<Value>)
    requires s.Valid()
    ensures forall p :: p in StateStage(s, ids) ==> s.Get(Place, p.id) == Some(p)
  {
    StateStageMembers(s, ids);
    forall p | p in StateStage(s, ids) ensures s.Get(Place, p.id) == Some(p) {
      var i :| 0 <= i < |ids| && p in StatePlaces(s, ids[i]);
      StatePlacesMembers(s, ids[i]);
    }
  }

  /** The city stage adds only stored Places. */
  lemma CityStageStored(s: Store, ids: seq<Value>, acc: seq<Entity>)
    requires s.Valid()
    requires forall p :: p in acc ==> s.Get(Place, p.id) == Some(p)
    ensures forall p :: p in CityStage(s, ids, acc) ==> s.Get(Place, p.id) == Some(p)
  {
    CityStageMembers(s, ids, acc);
    forall p | p in CityStage(s, ids, acc) && p !in acc ensures s.Get(Place, p.id) == Some(p) {
      var i :| 0 <= i < |ids| && p in CityPlaces(s, ids[i]);
      CityPlacesMembers(s, ids[i]);
    }
  }

  /** The places a search with criteria finds are stored Places, and with a truthy
      `amenities` criterion each links every requested amenity. */
  lemma FoundStored(s: Store, data: Attrs)
    requires s.Valid() && !Malformed(data)
    ensures forall p :: p in Found(s, data) ==> s.Get(Place, p.id) == Some(p)
    ensures Truthy(Field(data, "amenities")) ==>
      forall p :: p in Found(s, data) ==> HasAll(s, p, Lookups(s, Criterion(Field(data, "amenities")).value))
  {
    var stateIds := Criterion(Field(data, "states")).value;
    StateStageStored(s, stateIds);
    CityStageStored(s, Criterion(Field(data, "cities")).value, StateStage(s, stateIds));
    var located := Located(s, data);
    if Truthy(Field(data, "amenities")) {
      StorageFacts.GetAgreesWithAll(s, Place);
      AmenityStageFilters(s, Candidates(s, located), Lookups(s, Criterion(Field(data, "amenities")).value));
    }
  }

  /** `p` is a stored Place and, when `amenities` is truthy, links every requested amenity. */
  predicate Qualifies(s: Store, data: Attrs, p: Entity)
    requires !Malformed(data)
  {
    && s.Get(Place, p.id) == Some(p)
    && (Truthy(Field(data, "amenities")) ==> HasAll(s, p, Lookups(s, Criterion(Field(data, "amenities")).value)))
  }

  /** A search with well-formed criteria succeeds unless the amenity stage falls back to
      every Place, and then agrees with the intended route; the intended route always
      succeeds, and every record it answers is the projection of a stored Place that, when
      `amenities` is truthy, links every requested amenity. */
  lemma SearchFindsStoredPlaces(s: Store, data: Attrs)
    requires s.Valid()
    requires !NoCriteria(data) && !Malformed(data)
    ensures Search(s, Some(data)).Ok? <==> !FallsBack(s, data)
    ensures Search(s, Some(data)).Ok? ==> Search(s, Some(data)) == SearchIntended(s, Some(data))
    ensures SearchIntended(s, Some(data)).Ok?
    ensures forall d :: d in SearchIntended(s, Some(data)).payload.records ==>
      exists p: Entity :: Qualifies(s, data, p) && d == Projected(p)
  {
    var found := Found(s, data);
    FoundStored(s, data);
    var rs := Project(found);
    assert SearchIntended(s, Some(data)) == Ok(Records(rs));
    forall d | d in rs
      ensures exists p: Entity :: Qualifies(s, data, p) && d == Projected(p)
    {
      var i :| 0 <= i < |rs| && rs[i] == d;
      assert found[i] in found;
    }
  }
}
