/**
 The records the catalogue's REST API returns for characters, the domain
 records the app works with, and the pure mapping from the former to the latter
 (`toCharacterDomainList`, `toOriginDomain`, `toLocationDomain`).
 */
module APIMappers {

  datatype OriginServer = OriginServer(name: string, url: string)

  datatype LocationServer = LocationServer(name: string, url: string)

  datatype CharacterServer = CharacterServer(
    id: int,
    name: string,
    image: string,
    gender: string,
    species: string,
    status: string,
    origin: OriginServer,
    location: LocationServer,
    episodeList: seq<string>)

  /** One page of the character listing; only its `results` are read here. */
  datatype CharacterResponseServer = CharacterResponseServer(results: seq<CharacterServer>)

  datatype Origin = Origin(name: string, url: string)

  datatype Location = Location(name: string, url: string)

  datatype Character = Character(
    id: int,
    name: string,
    image: string,
    gender: string,
    species: string,
    status: string,
    origin: Origin,
    location: Location,
    episodeList: seq<string>)

  /** The suffix the mapper appends to every episode reference. */
  const EPISODE_SUFFIX: string := "/"

  function ToOriginDomain(origin: OriginServer): (r: Origin)
    ensures r.name == origin.name && r.url == origin.url
  {
    Origin(origin.name, origin.url)
  }

  function ToLocationDomain(location: LocationServer): (r: Location)
    ensures r.name == location.name && r.url == location.url
  {
    Location(location.name, location.url)
  }

  /** Each reference `e` becomes `e + "/"`, in the same order. */
  function ToEpisodeReferences(episodes: seq<string>): (refs: seq<string>)
    ensures |refs| == |episodes|
    ensures forall i :: 0 <= i < |episodes| ==> refs[i] == episodes[i] + EPISODE_SUFFIX
  {
    if episodes == [] then []
    else [episodes[0] + EPISODE_SUFFIX] + ToEpisodeReferences(episodes[1..])
  }

  /** One record: every field copied, origin and location projected, episodes suffixed. */
  function ToCharacterDomain(c: CharacterServer): (r: Character)
    ensures MapsTo(c, r)
  {
    Character(
      c.id, c.name, c.image, c.gender, c.species, c.status,
      ToOriginDomain(c.origin),
      ToLocationDomain(c.location),
      ToEpisodeReferences(c.episodeList))
  }

  /** True when `d` is what the mapper makes of `c`, field by field. */
  predicate MapsTo(c: CharacterServer, d: Character) {
    && d.id == c.id
    && d.name == c.name
    && d.image == c.image
    && d.gender == c.gender
    && d.species == c.species
    && d.status == c.status
    && d.origin.name == c.origin.name && d.origin.url == c.origin.url
    && d.location.name == c.location.name && d.location.url == c.location.url
    && |d.episodeList| == |c.episodeList|
    && forall k :: 0 <= k < |c.episodeList| ==> d.episodeList[k] == c.episodeList[k] + EPISODE_SUFFIX
  }

  /** Maps every record of a sequence, keeping length and order. */
  function ToCharacterDomainSeq(results: seq<CharacterServer>): (characters: seq<Character>)
    ensures |characters| == |results|
    ensures forall i :: 0 <= i < |results| ==> MapsTo(results[i], characters[i])
  {
    if results == [] then []
    else [ToCharacterDomain(results[0])] + ToCharacterDomainSeq(results[1..])
  }

  /** `toCharacterDomainList`: total and free of effects; one domain record per result, in order. */
  function ToCharacterDomainList(response: CharacterResponseServer): (characters: seq<Character>)
    ensures |characters| == |response.results|
    ensures forall i :: 0 <= i < |response.results| ==> MapsTo(response.results[i], characters[i])
  {
    ToCharacterDomainSeq(response.results)
  }

  // The inverse direction. The app never maps domain records back; these
  // functions exist to show that the mapping loses nothing.

  /** Removes the suffix the mapper appended, when it is there. */
  function StripEpisodeSuffix(reference: string): (episode: string)
    ensures |reference| > 0 && reference[|reference| - 1] == '/' ==> episode + EPISODE_SUFFIX == reference
    ensures |reference| == 0 || reference[|reference| - 1] != '/' ==> episode == reference
  {
    if |reference| > 0 && reference[|reference| - 1] == '/' then reference[..|reference| - 1]
    else reference
  }

  function FromEpisodeReferences(refs: seq<string>): (episodes: seq<string>)
    ensures |episodes| == |refs|
  {
    if refs == [] then []
    else [StripEpisodeSuffix(refs[0])] + FromEpisodeReferences(refs[1..])
  }

  function FromCharacterDomain(d: Character): CharacterServer {
    CharacterServer(
      d.id, d.name, d.image, d.gender, d.species, d.status,
      OriginServer(d.origin.name, d.origin.url),
      LocationServer(d.location.name, d.location.url),
      FromEpisodeReferences(d.episodeList))
  }

  function FromCharacterDomainSeq(characters: seq<Character>): (results: seq<CharacterServer>)
    ensures |results| == |characters|
  {
    if characters == [] then []
    else [FromCharacterDomain(characters[0])] + FromCharacterDomainSeq(characters[1..])
  }

  lemma StripAppendedSuffix(episode: string)
    ensures StripEpisodeSuffix(episode + EPISODE_SUFFIX) == episode
  {
  }

  /** Stripping undoes the suffix rule on every episode list. */
  lemma {:induction false} EpisodeReferencesRoundTrip(episodes: seq<string>)
    ensures FromEpisodeReferences(ToEpisodeReferences(episodes)) == episodes
  {
    if episodes != [] {
      var refs := ToEpisodeReferences(episodes);
      assert refs[1..] == ToEpisodeReferences(episodes[1..]);
      StripAppendedSuffix(episodes[0]);
      EpisodeReferencesRoundTrip(episodes[1..]);
    }
  }

  /** A single record survives the round trip unchanged. */
  lemma CharacterRoundTrip(c: CharacterServer)
    ensures FromCharacterDomain(ToCharacterDomain(c)) == c
  {
    EpisodeReferencesRoundTrip(c.episodeList);
  }

  /**
   The whole listing survives the round trip: the mapper keeps every field,
   every record and their order, and no two different responses map to the
   same list.
   */
  lemma {:induction false} CharacterDomainListRoundTrip(response: CharacterResponseServer)
    ensures FromCharacterDomainSeq(ToCharacterDomainList(response)) == response.results
    decreases |response.results|
  {
    var results := response.results;
    if results != [] {
      var characters := ToCharacterDomainSeq(results);
      assert characters[1..] == ToCharacterDomainSeq(results[1..]);
      CharacterRoundTrip(results[0]);
      CharacterDomainListRoundTrip(CharacterResponseServer(results[1..]));
    }
  }

  /** Different responses give different domain lists. */
  lemma ToCharacterDomainListInjective(a: CharacterResponseServer, b: CharacterResponseServer)
    requires ToCharacterDomainList(a) == ToCharacterDomainList(b)
    ensures a == b
  {
    CharacterDomainListRoundTrip(a);
    CharacterDomainListRoundTrip(b);
  }
}
