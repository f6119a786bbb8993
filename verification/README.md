# Rick and Morty catalogue client: presentation-layer decision logic

A Dafny model of the decision logic in the presentation layer of an Android
client for the Rick and Morty catalogue API, without its Android and RxJava
plumbing:

- `CharacterList` models `CharacterListViewModel`: the paging state
  (`currentPage`, `isLastPage`, `isLoading`), the `isInFooter` scroll test
  with `PAGE_SIZE = 20`, load-more, pull-to-refresh retry, and the handling of
  a page result, all as pure transitions that append to a log of
  `CharacterListNavigation` events and a log of requested pages.
- `CharacterDetail` models `CharacterDetailViewModel`: validation of the
  character the screen was opened with, the favourite-status check and update
  against a store of ids (`set<int>`), and episode loading.
- `APIMappers` models the pure API-to-domain mapper `toCharacterDomainList`
  with `toOriginDomain` and `toLocationDomain`, and an inverse used to prove
  that the mapping keeps every field, every record and their order.
- `KotlinInt` models Kotlin `Int` addition, which wraps around at 32 bits;
  `Results` holds the option, error and single-shot outcome shapes.

Each asynchronous request is two steps. The request step emits the loading
event and records what was requested. The completion step receives
`Success(value)` or `Failure(error)`. `Run` folds any sequence of calls and
completions over a state, in any interleaving. The two `RunInvariants`
lemmas, `NeverLoading` and `LastPageIgnoresScrolls` hold for every such
sequence. `LastPageIsTerminal` and `ShortListNeverFetches` are about
sequences made only of scroll events. `RepeatedUpdates` is about sequences
made only of favourite updates.

Inputs that come from code outside this model are parameters:

- the page items delivered by the HTTP layer;
- the favourites store, as a set of ids;
- the episode list or error delivered by the episode use case;
- the list's item count, which the fragment passes as `itemCount ?: 0`.

The model follows the code as written, including these behaviours:

- `isLoading` is declared but never set to true, so it never gates a fetch.
  `NeverLoading` and `DuplicateFetchWhileLoading` state the consequences.
- The page result carries the server records (`CharacterServer`), not mapped
  domain records.
- The mapper is total. It has no mapping-error path.
- The favourite update reports `false` for a character that is already a
  favourite. It is an insert-if-absent, not a toggle.

## Model

| member | source | states |
|---|---|---|
| KotlinInt.Add | app/src/main/kotlin/com/platzi/android/rickandmorty/presentation/CharacterListViewModel.kt:38 | Kotlin `Int` addition: the in-range value congruent to the exact sum modulo 2^32, equal to it when it fits |
| CharacterList.Init | app/src/main/kotlin/com/platzi/android/rickandmorty/presentation/CharacterListViewModel.kt:24-26 | a new view model is on page 1, not on the last page, not loading, with nothing requested or emitted |
| CharacterList.IsInFooter | app/src/main/kotlin/com/platzi/android/rickandmorty/presentation/CharacterListViewModel.kt:42-50 | when the sum does not overflow, in the footer iff visible + first >= total, first >= 0 and total >= PAGE_SIZE (20); never in the footer with a negative position, fewer than 20 items, or an overflowing sum |
| CharacterList.FooterSumWraps | app/src/main/kotlin/com/platzi/android/rickandmorty/presentation/CharacterListViewModel.kt:47 | the sum is Kotlin `Int` addition: for every window whose visible + first overflows `Int`, the window is not in the footer, even when its exact end is past every item |
| CharacterList.OnLoadMoreItems | app/src/main/kotlin/com/platzi/android/rickandmorty/presentation/CharacterListViewModel.kt:33-40 | when loading, on the last page or not in the footer the state is unchanged and nothing is fetched; otherwise the page grows by one (wrapping at Int.MAX) and exactly one fetch for the new page is issued, with ShowLading |
| CharacterList.OnRetryGetAllCharacter | app/src/main/kotlin/com/platzi/android/rickandmorty/presentation/CharacterListViewModel.kt:52-60 | a populated list only emits HideLoading and fetches nothing; an empty list fetches the unchanged current page; the page and flags never change |
| CharacterList.OnGetAllCharacters | app/src/main/kotlin/com/platzi/android/rickandmorty/presentation/CharacterListViewModel.kt:62-73 | issuing a fetch records exactly one request, for the current page, and emits ShowLading, changing nothing else |
| CharacterList.OnCharactersResult | app/src/main/kotlin/com/platzi/android/rickandmorty/presentation/CharacterListViewModel.kt:74-90 | afterwards isLastPage holds iff it held before, the fetch failed or the page had fewer than 20 items; emits HideLoading followed by the list or the error |
| CharacterList.RunInvariants | app/src/main/kotlin/com/platzi/android/rickandmorty/presentation/CharacterListViewModel.kt:24-90 | over every sequence of calls and completions isLoading is never changed, isLastPage never returns to false, and requests and events are only appended |
| CharacterList.NeverLoading | app/src/main/kotlin/com/platzi/android/rickandmorty/presentation/CharacterListViewModel.kt:26-34 | from a new view model isLoading is false after every sequence of calls, so it never blocks a load |
| CharacterList.LastPageIsTerminal | app/src/main/kotlin/com/platzi/android/rickandmorty/presentation/CharacterListViewModel.kt:33-36 | once isLastPage holds, every sequence of scroll events leaves the state unchanged and fetches nothing |
| CharacterList.LastPageIgnoresScrolls | app/src/main/kotlin/com/platzi/android/rickandmorty/presentation/CharacterListViewModel.kt:33-90 | once isLastPage holds, any sequence of calls and completions ends in the same state as the same sequence with every scroll event removed |
| CharacterList.ShortListNeverFetches | app/src/main/kotlin/com/platzi/android/rickandmorty/presentation/CharacterListViewModel.kt:42-50 | while fewer than 20 items are loaded, every sequence of scroll events leaves the state unchanged |
| CharacterList.FetchSuccessEvents | app/src/main/kotlin/com/platzi/android/rickandmorty/presentation/CharacterListViewModel.kt:70-82 | a fetch followed by success emits ShowLading, HideLoading, ShowCharacterList(list), in that order |
| CharacterList.FetchFailureEvents | app/src/main/kotlin/com/platzi/android/rickandmorty/presentation/CharacterListViewModel.kt:84-89 | a fetch followed by failure emits ShowLading, HideLoading, ShowCharacterError(error) and sets isLastPage |
| CharacterList.FullFirstPage | app/src/main/kotlin/com/platzi/android/rickandmorty/presentation/CharacterListViewModel.kt:74-82 | a full first page of 20 leaves isLastPage false and the counter on page 1 |
| CharacterList.FailedFirstPageEndsPaging | app/src/main/kotlin/com/platzi/android/rickandmorty/presentation/CharacterListViewModel.kt:52-89 | after a failed first page, a retry on the empty list fetches page 1 again; even when that page comes back full, isLastPage stays set and every later scroll does nothing |
| CharacterList.DuplicateFetchWhileLoading | app/src/main/kotlin/com/platzi/android/rickandmorty/presentation/CharacterListViewModel.kt:33-39 | two scroll events in the footer before any completion issue two fetches, for the next two pages |
| CharacterDetail.Init | app/src/main/kotlin/com/platzi/android/rickandmorty/presentation/CharacterDetailViewModel.kt:19-34 | a new screen holds its character and the store, with no published values, events or requests |
| CharacterDetail.GetCharacterById | app/src/main/kotlin/com/platzi/android/rickandmorty/presentation/CharacterDetailViewModel.kt:59 | the store lookup yields at most the record with the requested id |
| CharacterDetail.ValidateFavoriteCharacterStatus | app/src/main/kotlin/com/platzi/android/rickandmorty/presentation/CharacterDetailViewModel.kt:81-94 | the status is true iff the store contains the id; the store, character and events are untouched; one store query is made |
| CharacterDetail.OnUpdateFavoriteCharacterStatus | app/src/main/kotlin/com/platzi/android/rickandmorty/presentation/CharacterDetailViewModel.kt:56-76 | fails iff the character is null; otherwise the store becomes store + {id}, growing by one exactly when the id was absent, and the reported status is whether it was absent |
| CharacterDetail.RequestShowEpisodeList | app/src/main/kotlin/com/platzi/android/rickandmorty/presentation/CharacterDetailViewModel.kt:96-101 | emits ShowEpisodeListLoading and requests exactly the given episode references |
| CharacterDetail.OnEpisodeListResult | app/src/main/kotlin/com/platzi/android/rickandmorty/presentation/CharacterDetailViewModel.kt:102-115 | emits HideEpisodeListLoading and then the episode list on success or the error on failure |
| CharacterDetail.OnCharacterValidation | app/src/main/kotlin/com/platzi/android/rickandmorty/presentation/CharacterDetailViewModel.kt:45-54 | a null character emits exactly CloseActivity and sets and requests nothing; otherwise the character is published, its favourite status checked, then its episodes requested, in that order |
| CharacterDetail.CheckIsIdempotent | app/src/main/kotlin/com/platzi/android/rickandmorty/presentation/CharacterDetailViewModel.kt:81-94 | checking the status twice gives the same answer |
| CharacterDetail.RepeatedUpdates | app/src/main/kotlin/com/platzi/android/rickandmorty/presentation/CharacterDetailViewModel.kt:56-76 | after any number of consecutive updates the store is store + {id}; only the first can report true, exactly when the id was absent, and every later one reports false |
| CharacterDetail.UpdateDisagreesWithCheck | app/src/main/kotlin/com/platzi/android/rickandmorty/presentation/CharacterDetailViewModel.kt:56-93 | for a character already in the store the update reports false while a following check reports true |
| CharacterDetail.RunInvariants | app/src/main/kotlin/com/platzi/android/rickandmorty/presentation/CharacterDetailViewModel.kt:45-115 | over every sequence of calls that does not fail, the store only grows and only by the character's id, the character never changes, and events and effects are only appended |
| CharacterDetail.NoCharacterUpdateFails | app/src/main/kotlin/com/platzi/android/rickandmorty/presentation/CharacterDetailViewModel.kt:57 | a screen without a character fails with a null dereference on any sequence of calls that includes an update |
| CharacterDetail.EpisodeLoadingEvents | app/src/main/kotlin/com/platzi/android/rickandmorty/presentation/CharacterDetailViewModel.kt:96-115 | episode loading emits ShowEpisodeListLoading, HideEpisodeListLoading, then exactly one of the list or the error |
| APIMappers.ToEpisodeReferences | app/src/main/kotlin/com/platzi/android/rickandmorty/api/APIMappers.kt:21 | same length and order, each reference e becomes e + "/" |
| APIMappers.ToOriginDomain | app/src/main/kotlin/com/platzi/android/rickandmorty/api/APIMappers.kt:38-41 | the domain origin has the same name and url |
| APIMappers.ToLocationDomain | app/src/main/kotlin/com/platzi/android/rickandmorty/api/APIMappers.kt:43-46 | the domain location has the same name and url |
| APIMappers.ToCharacterDomain | app/src/main/kotlin/com/platzi/android/rickandmorty/api/APIMappers.kt:11-23 | one record: id, name, image, gender, species and status copied, origin and location fields unchanged, episode list of the same length with each reference e becoming e + "/" |
| APIMappers.ToCharacterDomainSeq | app/src/main/kotlin/com/platzi/android/rickandmorty/api/APIMappers.kt:10-24 | same length and order as the input; each record keeps id, name, image, gender, species, status, origin and location fields, and has its episodes suffixed |
| APIMappers.ToCharacterDomainList | app/src/main/kotlin/com/platzi/android/rickandmorty/api/APIMappers.kt:10-24 | total on every response: one domain record per result, in order, field by field as above |
| APIMappers.EpisodeReferencesRoundTrip | app/src/main/kotlin/com/platzi/android/rickandmorty/api/APIMappers.kt:21 | stripping the suffix recovers every episode list exactly |
| APIMappers.CharacterRoundTrip | app/src/main/kotlin/com/platzi/android/rickandmorty/api/APIMappers.kt:11-23 | a single record, with its origin and location, is recovered exactly from its domain form |
| APIMappers.CharacterDomainListRoundTrip | app/src/main/kotlin/com/platzi/android/rickandmorty/api/APIMappers.kt:10-24 | the whole result list is recovered exactly from the domain list |
| APIMappers.ToCharacterDomainListInjective | app/src/main/kotlin/com/platzi/android/rickandmorty/api/APIMappers.kt:10-46 | two responses with the same domain list are the same response |

## Left out

- The single-use `Event` wrapper (`getContentIfNotHandled`): its source is not part of this model. Emitted events are a plain append-only log.
- `FavoriteListViewModel`: it wraps a reactive store query in `LiveData`. Its one decision, `onFavoriteCharacterList`, forwards the list unchanged.
- RxJava threading (`observeOn`, `subscribeOn`), `CompositeDisposable` cancellation in `onCleared`, and `LiveData` delivery are framework plumbing. Each request is a request step and a completion step, and `Run` allows any interleaving of them.
- Store queries are answered at the call. The reply to a favourite check or update arriving after other calls is not modelled.
- Store failures are not modelled. The view model subscribes to the store queries without an error callback.
- HTTP access (`getAllCharacters`, `toCharacterServerList`), the DAO internals and `GetEpisodeFromCharacterUseCase` are not part of this model. Their results are inputs.
- `toCharacterEntity` is commented out in the mapper file. The store keeps only the id of the record it would build.
- `EpisodeServer` is modelled only by the reference it was fetched from. Its fields are not part of this model.
- The list fragment's UI wiring (adapter, scroll listener, toasts) is left out. Its item count reaches the retry as a parameter.
