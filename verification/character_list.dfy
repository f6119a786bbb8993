/**
 The paging state machine of the character list screen (`CharacterListViewModel`).

 The view model keeps `currentPage`, `isLastPage` and `isLoading`, decides
 from the scroll position whether to load the next page, and reports what the
 screen should do through a log of navigation events. A page fetch is
 asynchronous; here it is two steps: issuing the request
 (`OnGetAllCharacters`, which records the requested page) and its completion
 (`OnCharactersResult`, with the page's items or the error).
 */
module CharacterList {
  import opened KotlinInt
  import opened Results
  import opened APIMappers

  /** Items per page, and the threshold below which a page is the last one. */
  const PAGE_SIZE: int := 20

  /** `CharacterListNavigation`; `ShowLading` keeps Kotlin's spelling. */
  datatype Navigation =
    | ShowCharacterError(error: Error)
    | ShowCharacterList(characterList: seq<CharacterServer>)
    | HideLoading
    | ShowLading

  /**
   The view model's fields, the pages requested from the catalogue so far
   (oldest first) and the events emitted so far (oldest first).
   */
  datatype State = State(
    currentPage: Int32,
    isLastPage: bool,
    isLoading: bool,
    requests: seq<Int32>,
    events: seq<Navigation>)

  function Init(): (s: State)
    ensures s.currentPage == 1 && !s.isLastPage && !s.isLoading
    ensures s.requests == [] && s.events == []
  {
    State(1, false, false, [], [])
  }

  /**
   Whether the visible window reaches the end of the loaded items. The sum is
   Kotlin `Int` addition; whenever it does not overflow, this is exactly the
   arithmetic condition on the counts, and when it overflows the window is
   never in the footer.
   */
  function IsInFooter(visibleItemCount: Int32, firstVisibleItemPosition: Int32, totalItemCount: Int32): (inFooter: bool)
    ensures inFooter ==> firstVisibleItemPosition >= 0 && totalItemCount >= PAGE_SIZE
    ensures InRange(visibleItemCount + firstVisibleItemPosition) ==>
      (inFooter <==>
        && visibleItemCount + firstVisibleItemPosition >= totalItemCount
        && firstVisibleItemPosition >= 0
        && totalItemCount >= PAGE_SIZE)
    ensures !InRange(visibleItemCount + firstVisibleItemPosition) ==> !inFooter
  {
    assert InRange(visibleItemCount) && InRange(firstVisibleItemPosition);
    && Add(visibleItemCount, firstVisibleItemPosition) >= totalItemCount
    && firstVisibleItemPosition >= 0
    && totalItemCount >= PAGE_SIZE
  }

  /**
   The sum wraps: whenever `visibleItemCount + firstVisibleItemPosition`
   overflows `Int`, the window is not in the footer, even though its exact end
   is past every item.
   */
  lemma FooterSumWraps(v: Int32, f: Int32, t: Int32)
    requires !InRange(v + f)
    ensures v + f > MAX ==> v + f >= t
    ensures !IsInFooter(v, f, t)
  {
    assert InRange(v) && InRange(f) && InRange(t);
    if v + f > MAX {
      assert Add(v, f) == v + f - MODULUS;
    } else {
      assert f < 0;
    }
  }

  /** Issues the fetch of `currentPage`; the loading indicator is shown when the request is subscribed. */
  function OnGetAllCharacters(s: State): (r: State)
    ensures r.currentPage == s.currentPage && r.isLastPage == s.isLastPage && r.isLoading == s.isLoading
    ensures |r.requests| == |s.requests| + 1 && r.requests[..|s.requests|] == s.requests
    ensures r.requests[|s.requests|] == s.currentPage
    ensures |r.events| == |s.events| + 1 && r.events[..|s.events|] == s.events
    ensures r.events[|s.events|] == ShowLading
  {
    s.(requests := s.requests + [s.currentPage], events := s.events + [ShowLading])
  }

  /**
   Completion of a page fetch. A short page or an error ends paging; a full
   page leaves `isLastPage` as it was. The loading indicator is hidden first,
   then the items or the error are shown.
   */
  function OnCharactersResult(s: State, result: Outcome<seq<CharacterServer>>): (r: State)
    ensures r.currentPage == s.currentPage && r.isLoading == s.isLoading && r.requests == s.requests
    ensures r.isLastPage <==> s.isLastPage || result.Failure? || |result.value| < PAGE_SIZE
    ensures |r.events| == |s.events| + 2 && r.events[..|s.events|] == s.events
    ensures r.events[|s.events|] == HideLoading
    ensures result.Success? ==> r.events[|s.events| + 1] == ShowCharacterList(result.value)
    ensures result.Failure? ==> r.events[|s.events| + 1] == ShowCharacterError(result.error)
  {
    match result
    case Success(characterList) =>
      var last := if |characterList| < PAGE_SIZE then true else s.isLastPage;
      s.(isLastPage := last, events := s.events + [HideLoading, ShowCharacterList(characterList)])
    case Failure(error) =>
      s.(isLastPage := true, events := s.events + [HideLoading, ShowCharacterError(error)])
  }

  /** True when scrolling must not start a fetch. */
  predicate LoadMoreBlocked(s: State, visibleItemCount: Int32, firstVisibleItemPosition: Int32, totalItemCount: Int32) {
    s.isLoading || s.isLastPage || !IsInFooter(visibleItemCount, firstVisibleItemPosition, totalItemCount)
  }

  /**
   Scrolling: when loading, on the last page or away from the footer nothing
   happens; otherwise the page counter advances (as a Kotlin `Int`) and that
   page is fetched.
   */
  function OnLoadMoreItems(s: State, visibleItemCount: Int32, firstVisibleItemPosition: Int32, totalItemCount: Int32): (r: State)
    ensures LoadMoreBlocked(s, visibleItemCount, firstVisibleItemPosition, totalItemCount) ==> r == s
    ensures !LoadMoreBlocked(s, visibleItemCount, firstVisibleItemPosition, totalItemCount) ==>
      && (r.currentPage - s.currentPage - 1) % MODULUS == 0
      && (s.currentPage < MAX ==> r.currentPage == s.currentPage + 1)
      && r.isLastPage == s.isLastPage && r.isLoading == s.isLoading
      && r.requests == s.requests + [r.currentPage]
      && r.events == s.events + [ShowLading]
  {
    if LoadMoreBlocked(s, visibleItemCount, firstVisibleItemPosition, totalItemCount) then s
    else OnGetAllCharacters(s.(currentPage := Add(s.currentPage, 1)))
  }

  /**
   Pull-to-refresh. `itemCount` is the number of items the list already shows
   (zero when it has no adapter). A populated list only hides the indicator;
   an empty one fetches the current page again.
   */
  function OnRetryGetAllCharacter(s: State, itemCount: Int32): (r: State)
    ensures r.currentPage == s.currentPage && r.isLastPage == s.isLastPage && r.isLoading == s.isLoading
    ensures itemCount > 0 ==> r.requests == s.requests && r.events == s.events + [HideLoading]
    ensures itemCount <= 0 ==> r.requests == s.requests + [s.currentPage] && r.events == s.events + [ShowLading]
  {
    if itemCount > 0 then s.(events := s.events + [HideLoading])
    else OnGetAllCharacters(s)
  }

  /** Everything that can happen to the view model, one call or callback at a time. */
  datatype Input =
    | LoadMoreItems(visibleItemCount: Int32, firstVisibleItemPosition: Int32, totalItemCount: Int32)
    | RetryGetAllCharacter(itemCount: Int32)
    | GetAllCharacters
    | CharactersResult(result: Outcome<seq<CharacterServer>>)

  function Step(s: State, input: Input): State {
    match input
    case LoadMoreItems(v, f, t) => OnLoadMoreItems(s, v, f, t)
    case RetryGetAllCharacter(n) => OnRetryGetAllCharacter(s, n)
    case GetAllCharacters => OnGetAllCharacters(s)
    case CharactersResult(result) => OnCharactersResult(s, result)
  }

  function Run(s: State, inputs: seq<Input>): State
    decreases |inputs|
  {
    if inputs == [] then s else Run(Step(s, inputs[0]), inputs[1..])
  }

  /** Running two inputs is two steps. */
  lemma RunPair(s: State, first: Input, second: Input)
    ensures Run(s, [first, second]) == Step(Step(s, first), second)
  {
    var next := Step(s, first);
    assert [first, second][1..] == [second];
    assert [second][1..] == [];
    assert Run(next, [second]) == Run(Step(next, second), []);
  }

  /**
   Along any sequence of calls and callbacks: `isLoading` is never assigned,
   `isLastPage` never goes from true back to false, and requests and events
   are only ever appended.
   */
  lemma {:induction false} RunInvariants(s: State, inputs: seq<Input>)
    ensures Run(s, inputs).isLoading == s.isLoading
    ensures s.isLastPage ==> Run(s, inputs).isLastPage
    ensures |s.requests| <= |Run(s, inputs).requests| && Run(s, inputs).requests[..|s.requests|] == s.requests
    ensures |s.events| <= |Run(s, inputs).events| && Run(s, inputs).events[..|s.events|] == s.events
    decreases |inputs|
  {
    if inputs != [] {
      var next := Step(s, inputs[0]);
      RunInvariants(next, inputs[1..]);
      var r := Run(s, inputs);
      assert r == Run(next, inputs[1..]);
      assert r.requests[..|s.requests|] == r.requests[..|next.requests|][..|s.requests|];
      assert r.events[..|s.events|] == r.events[..|next.events|][..|s.events|];
    }
  }

  /** Starting from a fresh view model, `isLoading` is false forever, so it never blocks a load. */
  lemma NeverLoading(inputs: seq<Input>)
    ensures !Run(Init(), inputs).isLoading
  {
    RunInvariants(Init(), inputs);
  }

  predicate AllLoadMore(inputs: seq<Input>) {
    forall i :: 0 <= i < |inputs| ==> inputs[i].LoadMoreItems?
  }

  /** Once the last page is reached, no amount of scrolling changes anything or fetches anything. */
  lemma {:induction false} LastPageIsTerminal(s: State, inputs: seq<Input>)
    requires s.isLastPage
    requires AllLoadMore(inputs)
    ensures Run(s, inputs) == s
    decreases |inputs|
  {
    if inputs != [] {
      assert Step(s, inputs[0]) == s;
      LastPageIsTerminal(s, inputs[1..]);
    }
  }

  /** The calls and callbacks of a sequence other than scroll events, in order. */
  function WithoutScrolls(inputs: seq<Input>): (rest: seq<Input>)
    ensures |rest| <= |inputs|
    ensures forall i :: 0 <= i < |rest| ==> !rest[i].LoadMoreItems?
  {
    if inputs == [] then []
    else if inputs[0].LoadMoreItems? then WithoutScrolls(inputs[1..])
    else [inputs[0]] + WithoutScrolls(inputs[1..])
  }

  /**
   Once the last page is reached, scroll events are ignored whatever else is
   interleaved with them: fetch completions, retries and explicit fetches
   lead to the same state with or without the scrolls.
   */
  lemma {:induction false} LastPageIgnoresScrolls(s: State, inputs: seq<Input>)
    requires s.isLastPage
    ensures Run(s, inputs) == Run(s, WithoutScrolls(inputs))
    decreases |inputs|
  {
    if inputs != [] {
      var next := Step(s, inputs[0]);
      if inputs[0].LoadMoreItems? {
        assert next == s;
        LastPageIgnoresScrolls(s, inputs[1..]);
      } else {
        var rest := WithoutScrolls(inputs[1..]);
        assert WithoutScrolls(inputs) == [inputs[0]] + rest;
        assert ([inputs[0]] + rest)[1..] == rest;
        LastPageIgnoresScrolls(next, inputs[1..]);
      }
    }
  }

  /** While fewer items than a page are loaded, scrolling never fetches anything. */
  lemma {:induction false} ShortListNeverFetches(s: State, inputs: seq<Input>)
    requires forall i :: 0 <= i < |inputs| ==> inputs[i].LoadMoreItems? && inputs[i].totalItemCount < PAGE_SIZE
    ensures Run(s, inputs) == s
    decreases |inputs|
  {
    if inputs != [] {
      assert Step(s, inputs[0]) == s;
      ShortListNeverFetches(s, inputs[1..]);
    }
  }

  /** A successful fetch shows the indicator, hides it, then shows the page, in that order. */
  lemma FetchSuccessEvents(s: State, characterList: seq<CharacterServer>)
    ensures Run(s, [GetAllCharacters, CharactersResult(Success(characterList))]).events
      == s.events + [ShowLading, HideLoading, ShowCharacterList(characterList)]
  {
    RunPair(s, GetAllCharacters, CharactersResult(Success(characterList)));
  }

  /** A failed fetch shows the indicator, hides it, shows the error, and ends paging. */
  lemma FetchFailureEvents(s: State, error: Error)
    ensures Run(s, [GetAllCharacters, CharactersResult(Failure(error))]).events
      == s.events + [ShowLading, HideLoading, ShowCharacterError(error)]
    ensures Run(s, [GetAllCharacters, CharactersResult(Failure(error))]).isLastPage
  {
    RunPair(s, GetAllCharacters, CharactersResult(Failure(error)));
  }

  /** The first page coming back full leaves paging open and the counter on page 1. */
  lemma FullFirstPage(characterList: seq<CharacterServer>)
    requires |characterList| == PAGE_SIZE
    ensures !Run(Init(), [GetAllCharacters, CharactersResult(Success(characterList))]).isLastPage
    ensures Run(Init(), [GetAllCharacters, CharactersResult(Success(characterList))]).currentPage == 1
  {
    RunPair(Init(), GetAllCharacters, CharactersResult(Success(characterList)));
  }

  /** Running two sequences one after the other is running their concatenation. */
  lemma {:induction false} RunAppend(s: State, first: seq<Input>, second: seq<Input>)
    ensures Run(s, first + second) == Run(Run(s, first), second)
    decreases |first|
  {
    if first != [] {
      assert (first + second)[0] == first[0];
      assert (first + second)[1..] == first[1..] + second;
      RunAppend(Step(s, first[0]), first[1..], second);
    } else {
      assert first + second == second;
    }
  }

  /**
   A failed first page ends paging for good: a pull-to-refresh on the empty
   list fetches page 1 again, and even when that page comes back full,
   `isLastPage` stays set, so scrolling never loads page 2.
   */
  lemma FailedFirstPageEndsPaging(error: Error, page: seq<CharacterServer>, scrolls: seq<Input>)
    requires |page| == PAGE_SIZE
    requires AllLoadMore(scrolls)
    ensures var afterRetry := Run(Init(), [GetAllCharacters, CharactersResult(Failure(error)),
                                          RetryGetAllCharacter(0), CharactersResult(Success(page))]);
      && afterRetry.isLastPage
      && afterRetry.requests == [1, 1]
      && Run(afterRetry, scrolls) == afterRetry
  {
    var failed := Run(Init(), [GetAllCharacters, CharactersResult(Failure(error))]);
    FetchFailureEvents(Init(), error);
    RunPair(failed, RetryGetAllCharacter(0), CharactersResult(Success(page)));
    RunAppend(Init(), [GetAllCharacters, CharactersResult(Failure(error))],
                      [RetryGetAllCharacter(0), CharactersResult(Success(page))]);
    RunPair(Init(), GetAllCharacters, CharactersResult(Failure(error)));
    var afterRetry := Run(failed, [RetryGetAllCharacter(0), CharactersResult(Success(page))]);
    assert [GetAllCharacters, CharactersResult(Failure(error))] + [RetryGetAllCharacter(0), CharactersResult(Success(page))]
      == [GetAllCharacters, CharactersResult(Failure(error)), RetryGetAllCharacter(0), CharactersResult(Success(page))];
    LastPageIsTerminal(afterRetry, scrolls);
  }

  /**
   Because `isLoading` is never set, two scroll events in the footer before
   the first page arrives issue two fetches, for two consecutive pages.
   */
  lemma DuplicateFetchWhileLoading(s: State, v: Int32, f: Int32, t: Int32)
    requires !s.isLoading && !s.isLastPage && IsInFooter(v, f, t)
    requires s.currentPage < MAX - 1
    ensures OnLoadMoreItems(OnLoadMoreItems(s, v, f, t), v, f, t).requests
      == s.requests + [s.currentPage + 1, s.currentPage + 2]
  {
  }
}
