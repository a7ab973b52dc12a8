/** The species selection of detect_specie/main.py. The classifier's scores and the order
    in which it ranks the classes (numpy's argsort, reversed) are given; the iNaturalist
    query "is this species observed near here" is an oracle `observed`. */
module DetectSpecie {
  import opened Common

  /** The score a class needs to be considered. */
  const Threshold: real := 0.2

  /** The last two pieces of a list (`parts[-2:]`): the whole list when it is shorter. */
  function LastTwo(parts: seq<string>): seq<string>
  {
    if |parts| < 2 then parts else parts[|parts| - 2..]
  }

  /** `parts[-2:]` is the suffix of length two, or the whole list when it is shorter. */
  lemma LastTwoMeaning(parts: seq<string>)
    ensures var r := LastTwo(parts);
      && |r| == (if |parts| < 2 then |parts| else 2)
      && r == parts[|parts| - |r|..]
  {
  }

  /** get_latin_name: the last two "_"-separated pieces of the class's full name, joined by
      a space; "" for a class the mapping does not know. */
  function GetLatinName(classId: int, classMapping: map<int, string>): string
  {
    var full := if classId in classMapping then classMapping[classId] else "";
    Join(LastTwo(Split(full, '_')), " ")
  }

  /** A class the mapping does not know has the empty name. */
  lemma UnknownClassHasNoName(classId: int, classMapping: map<int, string>)
    requires classId !in classMapping
    ensures GetLatinName(classId, classMapping) == []
  {
    assert Split([], '_') == [[]];
  }

  /** A full name without "_" is its own Latin name. */
  lemma NameWithoutUnderscoreKept(classId: int, classMapping: map<int, string>)
    requires classId in classMapping && '_' !in classMapping[classId]
    ensures GetLatinName(classId, classMapping) == classMapping[classId]
  {
    SplitWithoutSeparator(classMapping[classId], '_');
  }

  /** "<anything>_Genus_species" gives "Genus species". */
  lemma LatinNameOfFullName(classId: int, classMapping: map<int, string>,
                            prefix: string, genus: string, species: string)
    requires '_' !in genus && '_' !in species
    requires classId in classMapping && classMapping[classId] == prefix + "_" + genus + "_" + species
    ensures GetLatinName(classId, classMapping) == genus + " " + species
  {
    var full := prefix + "_" + genus + "_" + species;
    assert full == prefix + ['_'] + (genus + ['_'] + species);
    SplitAround(prefix, genus + ['_'] + species, '_');
    SplitAround(genus, species, '_');
    SplitWithoutSeparator(genus, '_');
    SplitWithoutSeparator(species, '_');
    var parts := Split(full, '_');
    assert parts == Split(prefix, '_') + ([genus] + [species]);
    assert LastTwo(parts) == [genus, species];
    assert Join([genus, species], " ") == genus + " " + Join([species], " ");
  }

  /** is_species_at_location: False without asking when the name is empty or a coordinate
      is missing; otherwise what the query answers. */
  function IsSpeciesAtLocation(scientificName: string, lat: Option<real>, lon: Option<real>,
                               observed: (string, real, real) -> bool): bool
  {
    if scientificName == [] || lat.None? || lon.None? then false
    else observed(scientificName, lat.value, lon.value)
  }

  /** The query is asked only with a name and both coordinates, and its answer is kept. */
  lemma IsSpeciesAtLocationMeaning(scientificName: string, lat: Option<real>, lon: Option<real>,
                                   observed: (string, real, real) -> bool)
    ensures scientificName == [] || lat.None? || lon.None? ==>
      !IsSpeciesAtLocation(scientificName, lat, lon, observed)
    ensures scientificName != [] && lat.Some? && lon.Some? ==>
      (IsSpeciesAtLocation(scientificName, lat, lon, observed) <==> observed(scientificName, lat.value, lon.value))
  {
  }

  /** Whether `find_specie` stops at a class: its score clears the threshold, and either no
      location is known or the species is observed there. */
  predicate Accepts(probs: seq<real>, classId: nat, classMapping: map<int, string>,
                    lat: Option<real>, lon: Option<real>, observed: (string, real, real) -> bool)
    requires classId < |probs|
  {
    && probs[classId] >= Threshold
    && (lat.None? || lon.None?
        || IsSpeciesAtLocation(GetLatinName(classId, classMapping), lat, lon, observed))
  }

  predicate Ranks(probs: seq<real>, order: seq<nat>)
  {
    forall k :: 0 <= k < |order| ==> order[k] < |probs|
  }

  /** The position in `order` of the first class accepted, or |order| when there is none. */
  function FirstAccepted(probs: seq<real>, order: seq<nat>, classMapping: map<int, string>,
                         lat: Option<real>, lon: Option<real>,
                         observed: (string, real, real) -> bool): (k: nat)
    requires Ranks(probs, order)
    ensures k <= |order|
    ensures k < |order| ==> Accepts(probs, order[k], classMapping, lat, lon, observed)
    ensures forall j :: 0 <= j < k ==> !Accepts(probs, order[j], classMapping, lat, lon, observed)
    decreases |order|
  {
    if order == [] then 0
    else if Accepts(probs, order[0], classMapping, lat, lon, observed) then 0
    else 1 + FirstAccepted(probs, order[1..], classMapping, lat, lon, observed)
  }

  /** What find_specie answers: the Latin name of the first accepted class, or "". */
  function Selected(probs: seq<real>, order: seq<nat>, classMapping: map<int, string>,
                    lat: Option<real>, lon: Option<real>,
                    observed: (string, real, real) -> bool): string
    requires Ranks(probs, order)
  {
    var k := FirstAccepted(probs, order, classMapping, lat, lon, observed);
    if k < |order| then GetLatinName(order[k], classMapping) else ""
  }

  /** find_specie's loop over the classes, best first: a class below the threshold is
      skipped; without a location the first class left is the answer; with one, the first
      class observed there. */
  method FindSpecie(probs: seq<real>, order: seq<nat>, classMapping: map<int, string>,
                    lat: Option<real>, lon: Option<real>,
                    observed: (string, real, real) -> bool)
    returns (name: string)
    requires Ranks(probs, order)
    ensures name == Selected(probs, order, classMapping, lat, lon, observed)
  {
    for i := 0 to |order|
      invariant i <= FirstAccepted(probs, order, classMapping, lat, lon, observed)
    {
      var classId := order[i];
      var score := probs[classId];
      if score < Threshold {
        continue;
      }
      var scientificName := GetLatinName(classId, classMapping);
      if lat.None? || lon.None? {
        return scientificName;
      }
      if IsSpeciesAtLocation(scientificName, lat, lon, observed) {
        return scientificName;
      }
    }
    return "";
  }

  /** The first accepted position is the one before which nothing is accepted. */
  lemma {:induction false} FirstAcceptedIs(probs: seq<real>, order: seq<nat>,
                                           classMapping: map<int, string>,
                                           lat: Option<real>, lon: Option<real>,
                                           observed: (string, real, real) -> bool, i: nat)
    requires Ranks(probs, order) && i <= |order|
    requires i < |order| ==> Accepts(probs, order[i], classMapping, lat, lon, observed)
    requires forall j :: 0 <= j < i ==> !Accepts(probs, order[j], classMapping, lat, lon, observed)
    ensures FirstAccepted(probs, order, classMapping, lat, lon, observed) == i
    decreases |order|
  {
    if order != [] && i > 0 {
      assert Ranks(probs, order[1..]);
      FirstAcceptedIs(probs, order[1..], classMapping, lat, lon, observed, i - 1);
    }
  }

  /** The answer is "" or the Latin name of a class whose score clears the threshold. */
  lemma SelectedClearsThreshold(probs: seq<real>, order: seq<nat>, classMapping: map<int, string>,
                                lat: Option<real>, lon: Option<real>,
                                observed: (string, real, real) -> bool)
    requires Ranks(probs, order)
    ensures var name := Selected(probs, order, classMapping, lat, lon, observed);
      name == [] || exists k :: 0 <= k < |order| && probs[order[k]] >= Threshold
                                && name == GetLatinName(order[k], classMapping)
  {
    var k := FirstAccepted(probs, order, classMapping, lat, lon, observed);
    if k < |order| {
      assert probs[order[k]] >= Threshold;
    }
  }

  /** Without a location, when the best-ranked class clears the threshold it is the answer. */
  lemma TopClassWithoutLocation(probs: seq<real>, order: seq<nat>, classMapping: map<int, string>,
                                lon: Option<real>, observed: (string, real, real) -> bool)
    requires Ranks(probs, order) && order != [] && probs[order[0]] >= Threshold
    ensures Selected(probs, order, classMapping, None, lon, observed) == GetLatinName(order[0], classMapping)
  {
    FirstAcceptedIs(probs, order, classMapping, None, lon, observed, 0);
  }

  /** Without a location and with the classes ranked best first, no class clears the
      threshold when the best one does not, and the answer is "". */
  lemma NothingClearsThreshold(probs: seq<real>, order: seq<nat>, classMapping: map<int, string>,
                               lon: Option<real>, observed: (string, real, real) -> bool)
    requires Ranks(probs, order) && order != [] && probs[order[0]] < Threshold
    requires forall k :: 0 <= k < |order| ==> probs[order[k]] <= probs[order[0]]
    ensures Selected(probs, order, classMapping, None, lon, observed) == []
  {
    FirstAcceptedIs(probs, order, classMapping, None, lon, observed, |order|);
  }
}
