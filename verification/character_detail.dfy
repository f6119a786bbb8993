/**
 The character detail screen (`CharacterDetailViewModel`): it validates the
 character it was opened with, shows and updates whether that character is a
 favourite, and loads the character's episodes.

 The favourites store is the set of ids it holds. The episode fetch is
 asynchronous and is two steps here: the request (`RequestShowEpisodeList`)
 and its completion (`OnEpisodeListResult`). Store queries are answered at the
 call.
 */
module CharacterDetail {
  import opened Results
  import opened APIMappers

  /**
   An episode as the episode use case returns it. Only the reference it was
   fetched from is modelled; its other fields play no part in this logic.
   */
  datatype EpisodeServer = EpisodeServer(url: string)

  /** `CharacterDetailNavigation`. */
  datatype Navigation =
    | ShowEpisodeError(error: Error)
    | ShowEpisodeList(episodeList: seq<EpisodeServer>)
    | CloseActivity
    | HideEpisodeListLoading
    | ShowEpisodeListLoading

  /** What the view model asks of its collaborators, in the order it asks. */
  datatype Effect =
    | PublishCharacter(character: CharacterServer)
    | QueryFavorite(id: int)
    | UpdateFavorite(id: int)
    | LoadEpisodes(episodeUrlList: seq<string>)

  /**
   The character the screen was opened with (`null` is `None`), the two
   observable values, the favourites store, and the logs of events and
   effects (oldest first).
   */
  datatype State = State(
    character: Option<CharacterServer>,
    characterValues: Option<CharacterServer>,
    isFavorite: Option<bool>,
    store: set<int>,
    events: seq<Navigation>,
    effects: seq<Effect>)

  function Init(character: Option<CharacterServer>, store: set<int>): (s: State)
    ensures s.character == character && s.store == store
    ensures s.characterValues.None? && s.isFavorite.None?
    ensures s.events == [] && s.effects == []
  {
    State(character, None, None, store, [], [])
  }

  /** The store's `getCharacterById`: at most one record, the one with that id. */
  function GetCharacterById(store: set<int>, id: int): (found: Option<int>)
    ensures found.Some? <==> id in store
    ensures found.Some? ==> found.value == id
  {
    if id in store then Some(id) else None
  }

  /** `validateFavoriteCharacterStatus`: the character is a favourite when the lookup is not empty. */
  function ValidateFavoriteCharacterStatus(s: State, characterId: int): (r: State)
    ensures r.isFavorite == Some(characterId in s.store)
    ensures r.store == s.store && r.character == s.character && r.characterValues == s.characterValues
    ensures r.events == s.events
    ensures r.effects == s.effects + [QueryFavorite(characterId)]
  {
    var isEmpty := GetCharacterById(s.store, characterId).None?;
    s.(isFavorite := Some(!isEmpty), effects := s.effects + [QueryFavorite(characterId)])
  }

  /**
   `onUpdateFavoriteCharacterStatus`. The character must not be null (the
   view model dereferences it with `!!`). The id is inserted only when absent, and
   the reported status is whether it WAS absent: `true` after an insert,
   `false` when it was already a favourite.
   */
  function OnUpdateFavoriteCharacterStatus(s: State): (r: Outcome<State>)
    ensures r.Failure? <==> s.character.None?
    ensures r.Failure? ==> r.error == NullPointerException
    ensures r.Success? ==>
      var id := s.character.value.id;
      && r.value.store == s.store + {id}
      && |r.value.store| == |s.store| + (if id in s.store then 0 else 1)
      && r.value.isFavorite == Some(id !in s.store)
      && r.value.character == s.character && r.value.characterValues == s.characterValues
      && r.value.events == s.events
      && r.value.effects == s.effects + [UpdateFavorite(id)]
  {
    match s.character
    case None => Failure(NullPointerException)
    case Some(character) =>
      var id := character.id;
      var isEmpty := GetCharacterById(s.store, id).None?;
      var store := if isEmpty then s.store + {id} else s.store;
      Success(s.(store := store, isFavorite := Some(isEmpty), effects := s.effects + [UpdateFavorite(id)]))
  }

  /** `requestShowEpisodeList`: the loading indicator is shown when the request is subscribed. */
  function RequestShowEpisodeList(s: State, episodeUrlList: seq<string>): (r: State)
    ensures r.events == s.events + [ShowEpisodeListLoading]
    ensures r.effects == s.effects + [LoadEpisodes(episodeUrlList)]
    ensures r.store == s.store && r.isFavorite == s.isFavorite
    ensures r.character == s.character && r.characterValues == s.characterValues
  {
    s.(events := s.events + [ShowEpisodeListLoading], effects := s.effects + [LoadEpisodes(episodeUrlList)])
  }

  /** Completion of the episode request: hide the indicator, then show the episodes or the error. */
  function OnEpisodeListResult(s: State, result: Outcome<seq<EpisodeServer>>): (r: State)
    ensures |r.events| == |s.events| + 2 && r.events[..|s.events|] == s.events
    ensures r.events[|s.events|] == HideEpisodeListLoading
    ensures result.Success? ==> r.events[|s.events| + 1] == ShowEpisodeList(result.value)
    ensures result.Failure? ==> r.events[|s.events| + 1] == ShowEpisodeError(result.error)
    ensures r.effects == s.effects && r.store == s.store && r.isFavorite == s.isFavorite
    ensures r.character == s.character && r.characterValues == s.characterValues
  {
    match result
    case Success(episodeList) => s.(events := s.events + [HideEpisodeListLoading, ShowEpisodeList(episodeList)])
    case Failure(error) => s.(events := s.events + [HideEpisodeListLoading, ShowEpisodeError(error)])
  }

  /**
   `onCharacterValidation`. Without a character the screen is closed and
   nothing else happens. With one, the character is published, then its
   favourite status is checked, then its episodes are requested.
   */
  function OnCharacterValidation(s: State): (r: State)
    ensures r.store == s.store && r.character == s.character
    ensures s.character.None? ==>
      && r.events == s.events + [CloseActivity]
      && r.effects == s.effects
      && r.characterValues == s.characterValues && r.isFavorite == s.isFavorite
    ensures s.character.Some? ==>
      var c := s.character.value;
      && r.characterValues == Some(c)
      && r.isFavorite == Some(c.id in s.store)
      && r.events == s.events + [ShowEpisodeListLoading]
      && r.effects == s.effects + [PublishCharacter(c), QueryFavorite(c.id), LoadEpisodes(c.episodeList)]
  {
    match s.character
    case None => s.(events := s.events + [CloseActivity])
    case Some(character) =>
      var published := s.(characterValues := Some(character), effects := s.effects + [PublishCharacter(character)]);
      var checked := ValidateFavoriteCharacterStatus(published, character.id);
      RequestShowEpisodeList(checked, character.episodeList)
  }

  /** Checking the status never changes the store, so checking twice answers the same. */
  lemma CheckIsIdempotent(s: State, id: int)
    ensures ValidateFavoriteCharacterStatus(ValidateFavoriteCharacterStatus(s, id), id).isFavorite
      == ValidateFavoriteCharacterStatus(s, id).isFavorite
  {
  }

  /**
   The update does not agree with the status check for a character that is
   already a favourite: the update reports `false`, while a check right after
   it reports `true`.
   */
  lemma UpdateDisagreesWithCheck(s: State)
    requires s.character.Some? && s.character.value.id in s.store
    ensures OnUpdateFavoriteCharacterStatus(s).Success?
    ensures OnUpdateFavoriteCharacterStatus(s).value.isFavorite == Some(false)
    ensures ValidateFavoriteCharacterStatus(OnUpdateFavoriteCharacterStatus(s).value, s.character.value.id).isFavorite
      == Some(true)
  {
  }

  /** Everything that can happen to the view model, one call or callback at a time. */
  datatype Input =
    | CharacterValidation
    | UpdateFavoriteCharacterStatus
    | EpisodeListResult(result: Outcome<seq<EpisodeServer>>)

  /** One call or callback; an update without a character fails and ends the run. */
  function Step(s: State, input: Input): Outcome<State> {
    match input
    case CharacterValidation => Success(OnCharacterValidation(s))
    case UpdateFavoriteCharacterStatus => OnUpdateFavoriteCharacterStatus(s)
    case EpisodeListResult(result) => Success(OnEpisodeListResult(s, result))
  }

  function Run(s: State, inputs: seq<Input>): Outcome<State>
    decreases |inputs|
  {
    if inputs == [] then Success(s)
    else
      match Step(s, inputs[0])
      case Failure(error) => Failure(error)
      case Success(next) => Run(next, inputs[1..])
  }

  /**
   Along any run that does not fail, the store only grows, and only by the id
   of the screen's character; the character never changes; events and effects
   are only ever appended.
   */
  lemma {:induction false} RunInvariants(s: State, inputs: seq<Input>)
    requires Run(s, inputs).Success?
    ensures var r := Run(s, inputs).value;
      && r.character == s.character
      && s.store <= r.store
      && r.store <= s.store + (if s.character.Some? then {s.character.value.id} else {})
      && |s.events| <= |r.events| && r.events[..|s.events|] == s.events
      && |s.effects| <= |r.effects| && r.effects[..|s.effects|] == s.effects
    decreases |inputs|
  {
    if inputs != [] {
      var next := Step(s, inputs[0]).value;
      RunInvariants(next, inputs[1..]);
      var r := Run(s, inputs).value;
      assert r == Run(next, inputs[1..]).value;
      assert r.events[..|s.events|] == r.events[..|next.events|][..|s.events|];
      assert r.effects[..|s.effects|] == r.effects[..|next.effects|][..|s.effects|];
    }
  }

  /** A screen opened without a character fails on an update, whatever happened before. */
  lemma {:induction false} NoCharacterUpdateFails(s: State, inputs: seq<Input>)
    requires s.character.None?
    requires UpdateFavoriteCharacterStatus in inputs
    ensures Run(s, inputs) == Failure(NullPointerException)
    decreases |inputs|
  {
    if inputs[0] != UpdateFavoriteCharacterStatus {
      var next := Step(s, inputs[0]).value;
      assert next.character.None?;
      assert UpdateFavoriteCharacterStatus in inputs[1..] by {
        var k :| 0 <= k < |inputs| && inputs[k] == UpdateFavoriteCharacterStatus;
        assert inputs[1..][k - 1] == UpdateFavoriteCharacterStatus;
      }
      NoCharacterUpdateFails(next, inputs[1..]);
    }
  }

  /** `n` copies of the same call. */
  function Repeat(input: Input, n: nat): (inputs: seq<Input>)
    ensures |inputs| == n
    ensures forall i :: 0 <= i < n ==> inputs[i] == input
  {
    if n == 0 then [] else [input] + Repeat(input, n - 1)
  }

  /**
   Repeated updates are idempotent on the store: after any number of them
   (at least one) the store is `store + {id}`. Only the first can report
   `true`, and it does exactly when the id was absent; every later one
   reports `false`.
   */
  lemma {:induction false} RepeatedUpdates(s: State, n: nat)
    requires s.character.Some? && n >= 1
    ensures Run(s, Repeat(UpdateFavoriteCharacterStatus, n)).Success?
    ensures var r := Run(s, Repeat(UpdateFavoriteCharacterStatus, n)).value;
      var id := s.character.value.id;
      && r.store == s.store + {id}
      && r.isFavorite == Some(n == 1 && id !in s.store)
    decreases n
  {
    var id := s.character.value.id;
    var next := OnUpdateFavoriteCharacterStatus(s).value;
    var inputs := Repeat(UpdateFavoriteCharacterStatus, n);
    assert inputs[1..] == Repeat(UpdateFavoriteCharacterStatus, n - 1);
    assert Run(s, inputs) == Run(next, inputs[1..]);
    if n > 1 {
      RepeatedUpdates(next, n - 1);
      assert id in next.store;
    }
  }

  /** Loading episodes emits the indicator, hides it, then exactly one of the list or the error. */
  lemma EpisodeLoadingEvents(s: State, episodeUrlList: seq<string>, result: Outcome<seq<EpisodeServer>>)
    ensures OnEpisodeListResult(RequestShowEpisodeList(s, episodeUrlList), result).events
      == s.events + [ShowEpisodeListLoading, HideEpisodeListLoading,
                     if result.Success? then ShowEpisodeList(result.value) else ShowEpisodeError(result.error)]
  {
  }
}
