/** `utils/popularDestinations.ts`: the fixed list of popular destinations
    and the two lookups, by airport code or city name and by code alone. */
module Destinations {
  import opened Wrappers
  import opened Text

  datatype Destination = Destination(name: string, code: string, country: string)

  /** `POPULAR_DESTINATIONS`, in order. */
  const PopularDestinations: seq<Destination> := [
    Destination("제주도", "CJU", "KR"),
    Destination("부산", "PUS", "KR"),
    Destination("도쿄", "NRT", "JP"),
    Destination("오사카", "KIX", "JP"),
    Destination("방콕", "BKK", "TH"),
    Destination("싱가포르", "SIN", "SG"),
    Destination("홍콩", "HKG", "HK"),
    Destination("다낭", "DAD", "VN"),
    Destination("세부", "CEB", "PH"),
    Destination("타이페이", "TPE", "TW"),
    Destination("마닐라", "MNL", "PH"),
    Destination("하노이", "HAN", "VN"),
    Destination("발리", "DPS", "ID"),
    Destination("쿠알라룸푸르", "KUL", "MY"),
    Destination("상하이", "PVG", "CN")
  ]

  /** The code test of both lookups: `d.code.toUpperCase() === key`. */
  predicate CodeMatches(d: Destination, key: string) {
    ToUpper(d.code) == key
  }

  /** The name test of `findDestination`: the name contains the trimmed
      input or is contained in it. */
  predicate NameMatches(d: Destination, t: string) {
    Contains(d.name, t) || Contains(t, d.name)
  }

  /** `ds.find(d => CodeMatches(d, key))`, as an index. */
  function FirstByCode(ds: seq<Destination>, key: string): (r: Option<nat>)
    ensures r.None? <==> forall i | 0 <= i < |ds| :: !CodeMatches(ds[i], key)
    ensures r.Some? ==> r.value < |ds| && CodeMatches(ds[r.value], key) &&
                        forall j | 0 <= j < r.value :: !CodeMatches(ds[j], key)
  {
    if ds == [] then None
    else if CodeMatches(ds[0], key) then Some(0)
    else match FirstByCode(ds[1..], key)
      case None => None
      case Some(i) => Some(i + 1)
  }

  /** `ds.find(d => NameMatches(d, t))`, as an index. */
  function FirstByName(ds: seq<Destination>, t: string): (r: Option<nat>)
    ensures r.None? <==> forall i | 0 <= i < |ds| :: !NameMatches(ds[i], t)
    ensures r.Some? ==> r.value < |ds| && NameMatches(ds[r.value], t) &&
                        forall j | 0 <= j < r.value :: !NameMatches(ds[j], t)
  {
    if ds == [] then None
    else if NameMatches(ds[0], t) then Some(0)
    else match FirstByName(ds[1..], t)
      case None => None
      case Some(i) => Some(i + 1)
  }

  /** The entry an index names, or `null`. */
  function EntryAt(r: Option<nat>): Option<Destination> {
    if r.Some? && r.value < |PopularDestinations| then Some(PopularDestinations[r.value]) else None
  }

  /** `findDestination(input)`: first by code against the trimmed, upper-cased
      input, then by name against the trimmed input, else `null`. */
  function FindDestination(input: string): (r: Option<Destination>)
    ensures r.Some? ==> r.value in PopularDestinations
  {
    var byCode := FirstByCode(PopularDestinations, ToUpper(Trim(input)));
    if byCode.Some? then EntryAt(byCode)
    else EntryAt(FirstByName(PopularDestinations, Trim(input)))
  }

  /** `findDestinationByCode(code)`. */
  function FindDestinationByCode(code: string): (r: Option<Destination>)
    ensures r.Some? ==> r.value in PopularDestinations && ToUpper(r.value.code) == ToUpper(code)
    ensures r.None? <==> forall d | d in PopularDestinations :: ToUpper(d.code) != ToUpper(code)
  {
    EntryAt(FirstByCode(PopularDestinations, ToUpper(code)))
  }

  /** A code match wins over every name match: when some entry's code equals
      the trimmed, upper-cased input, the first such entry is returned. */
  lemma {:induction false} CodeFirst(input: string, i: nat)
    requires i < |PopularDestinations| && CodeMatches(PopularDestinations[i], ToUpper(Trim(input)))
    requires forall j | 0 <= j < i :: !CodeMatches(PopularDestinations[j], ToUpper(Trim(input)))
    ensures FindDestination(input) == Some(PopularDestinations[i])
  {
    var r := FirstByCode(PopularDestinations, ToUpper(Trim(input)));
    assert r.Some?;
  }

  /** Without a code match, the first entry in a name relation with the
      trimmed input is returned. */
  lemma {:induction false} NameSecond(input: string, i: nat)
    requires forall j | 0 <= j < |PopularDestinations| :: !CodeMatches(PopularDestinations[j], ToUpper(Trim(input)))
    requires i < |PopularDestinations| && NameMatches(PopularDestinations[i], Trim(input))
    requires forall j | 0 <= j < i :: !NameMatches(PopularDestinations[j], Trim(input))
    ensures FindDestination(input) == Some(PopularDestinations[i])
  {
    var r := FirstByName(PopularDestinations, Trim(input));
    assert r.Some?;
  }

  /** `null` only when no entry is related to the input by code or by name. */
  lemma {:induction false} NotFoundIff(input: string)
    ensures FindDestination(input).None? <==>
            forall i | 0 <= i < |PopularDestinations| ::
              !CodeMatches(PopularDestinations[i], ToUpper(Trim(input))) &&
              !NameMatches(PopularDestinations[i], Trim(input))
  {
    var byCode := FirstByCode(PopularDestinations, ToUpper(Trim(input)));
    var byName := FirstByName(PopularDestinations, Trim(input));
    assert FindDestination(input).None? <==> byCode.None? && byName.None?;
  }

  /** Blank input matches no code but is contained in every name, so the
      first entry, Jeju, comes back. */
  lemma {:induction false} BlankFindsFirst(input: string)
    requires AllSpace(input)
    ensures FindDestination(input) == Some(PopularDestinations[0])
  {
    assert Trim(input) == [];
    assert ToUpper(Trim(input)) == [];
    forall j | 0 <= j < |PopularDestinations|
      ensures !CodeMatches(PopularDestinations[j], ToUpper(Trim(input)))
    {
      assert |ToUpper(PopularDestinations[j].code)| == |PopularDestinations[j].code| == 3;
    }
    assert NameMatches(PopularDestinations[0], []);
    NameSecond(input, 0);
  }

  /** The codes are written in upper case already. */
  lemma {:induction false} CodesUpper(i: nat)
    requires i < |PopularDestinations|
    ensures ToUpper(PopularDestinations[i].code) == PopularDestinations[i].code
  {
    var c := PopularDestinations[i].code;
    assert |c| == 3 && 'A' <= c[0] <= 'Z' && 'A' <= c[1] <= 'Z' && 'A' <= c[2] <= 'Z';
    assert ToUpper(c)[0] == c[0] && ToUpper(c)[1] == c[1] && ToUpper(c)[2] == c[2];
  }

  /** Every destination has a name, so `destination?.name` is truthy
      whenever a destination is found. */
  lemma {:induction false} NamesNonEmpty(d: Destination)
    requires d in PopularDestinations
    ensures d.name != ""
  {
  }

  /** No code occurs twice, so a code names at most one destination. */
  lemma {:induction false} CodesDistinct(i: nat, j: nat)
    requires i < j < |PopularDestinations|
    ensures PopularDestinations[i].code != PopularDestinations[j].code
  {
  }

  /** The first index whose code matches is the one `FirstByCode` returns. */
  lemma {:induction false} FirstByCodeAt(ds: seq<Destination>, key: string, i: nat)
    requires i < |ds| && CodeMatches(ds[i], key)
    requires forall j | 0 <= j < i :: !CodeMatches(ds[j], key)
    ensures FirstByCode(ds, key) == Some(i)
  {
  }

  /** Lookup by code ignores letter case and finds exactly the entry whose
      code is the upper-cased argument. */
  lemma {:induction false} ByCodeExact(code: string, i: nat)
    requires i < |PopularDestinations|
    ensures FindDestinationByCode(code) == Some(PopularDestinations[i]) <==>
            ToUpper(code) == PopularDestinations[i].code
  {
    CodesUpper(i);
    if ToUpper(code) == PopularDestinations[i].code {
      forall j | 0 <= j < i
        ensures !CodeMatches(PopularDestinations[j], ToUpper(code))
      {
        CodesUpper(j);
        CodesDistinct(j, i);
      }
      FirstByCodeAt(PopularDestinations, ToUpper(code), i);
    }
  }
}
