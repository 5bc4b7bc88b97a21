# Link Saver Chat: a verified model of the store and the offline worker

Link Saver Chat is a single-page app. Links are sent like chat messages into user-defined
categories, and the app keeps working offline. This project models two parts of it in Dafny.

The first is the **category/message store** of `script.js`. It keeps one state record:
- `categories`, the category names in most-recently-used order;
- `lastCategory`, the active category;
- `links`, a map from each category to its list of messages.

Each message has an id, a url, a title, an image, a description and a status of `ok`, `pending` or
`error`. The model is the class `LinkStore.Store`, whose methods update these fields in place, as
the app's functions do:
- adding, deleting and selecting a category;
- deleting and sending a message;
- resolving pending previews once the app is back online;
- loading and normalising the stored document at start-up.

Adding, deleting and selecting a category, and deleting or sending a message, end with
`saveState()`. Resolving previews saves only when some message changed. Making a category active on
its own, and the start-up move of the active category to the front, do not save. The model records
each save as a snapshot of the state in the field `saved`.

The store relies on three pure helpers, each in its own module:
- `JsText` models `String.prototype.trim`, with the ECMAScript white-space set;
- `Urls` models `normalizeUrl`. Its bare-domain regular expression is stated as a ghost predicate
  and implemented by a matcher that is proved equivalent to it;
- `Preview` models how `fetchPreview` picks a preview's title, description and image from the
  provider's JSON.

`Messages` holds the message lists and the per-list operations: filtering out an id, and
resolving the pending items.

The second part is the **service worker** (`service-worker.js`), modelled in the module
`ServiceWorker`. The class `ServiceWorker.CacheStorage` holds the origin's cache buckets: their
names in creation order, and a map from bucket name to bucket (URL to response). Its methods are:
- `Install`, which opens bucket `linksaver-chat-v2` and stores the six shell assets, all or none;
- `Activate`, which deletes every other bucket;
- `HandleFetch`, which routes each request by method, navigation mode and origin. Navigations go
  network-first, with the cached shell as the fallback. Same-origin requests are answered from the
  cache or the network, and the cache is refreshed. Everything else passes through.

The routing and the reply choices are pure functions, so lemmas can relate them across a whole
install, activate and fetch sequence.

Both components depend on the outside world. The model turns those dependencies into parameters:

| In the app | In the model |
|---|---|
| each network fetch | a parameter giving its outcome: success with data, or failure |
| `new URL(x)`, whether it accepts `x` | `isLikelyUrl` |
| `new URL(x).hostname` | `hostname` |
| `navigator.onLine` | `online` |
| the instant preview on screen | `current` |
| the generated message id | `id`, with a freshness precondition |

## Model

Some small definitions model a single source expression and are used as helpers inside the
contracts below, without rows of their own: `LinkStore.SendInput` (the raw input of `onSend`,
script.js:272), `Urls.HasHttpScheme` (the scheme test of `normalizeUrl`, script.js:317),
`Urls.IsBareDomain` (the executable bare-domain matcher of script.js:319), `Seqs.Without`
(`filter(c => c !== name)`, script.js:112 and 125) and `Messages.ListOf` (`links[c] || []`).

| member | source | states |
|---|---|---|
| JsText.TrimStart | script.js:97 | The result is a suffix of the input. Everything dropped is ECMAScript white space, and the result does not start with white space. |
| JsText.Trim | script.js:97 | `trim()` gives the empty string exactly when the input is all ECMAScript white space, which is when `if (!name) return` and `if (!raw) return` stop. |
| JsText.TrimEnd | script.js:97 | The result is a prefix of the input. Everything dropped is white space, and the result does not end with white space. |
| JsText.TrimIsTrimmed | script.js:316 | The result of `trim()` neither starts nor ends with white space. |
| JsText.TrimIdempotent | script.js:316 | Trimming twice is the same as trimming once. |
| Urls.BareDomainMatcherCorrect | script.js:319 | The executable matcher accepts exactly the strings matched by `^[\w.-]+\.[a-z]{2,}(\/.*)?$` with the `i` flag. That is: host characters, a final dot before the first `/`, at least two letters after that dot, and an optional path without line terminators. |
| Urls.NormalizeUrl | script.js:315-321 | A trimmed input that starts with `http://` or `https://` (case-insensitive) is returned unchanged. A bare domain is returned with `https://` prefixed. Anything else is returned trimmed. |
| Urls.NormalizeUrlShape | script.js:315-321 | The result is always trimmed. A bare-domain input always comes back with an http(s) scheme. |
| Urls.NormalizeUrlIdempotent | script.js:315-321 | Normalising twice gives the same result as normalising once. |
| Preview.FirstTruthy | script.js:328 | Returns the first non-empty candidate, or `""` exactly when every candidate is empty (JavaScript `a \|\| b \|\| …` over strings). |
| Preview.FetchPreview | script.js:323-332 | A failed fetch gives no preview. A successful one has the requested url and status `ok`. Its description is the provider's description. Its image is the first non-empty of `images[0]`, `image` and `icon`. Its title is the provider's title when that is non-empty, and otherwise a hostname. |
| Preview.PreviewImagePriority | script.js:328 | The chosen image is `images[0]` when non-empty, else `image` when non-empty, else `icon`. |
| Seqs.WithoutMembers | script.js:112 | `filter(c => c !== name)` keeps exactly the elements that differ from `name`. |
| Seqs.WithoutCount | script.js:112 | The filter removes every occurrence of `name` and keeps the multiplicity of every other element. |
| Seqs.WithoutDistinct | script.js:112 | Filtering a list of distinct names leaves the names distinct. |
| Messages.RemoveId | script.js:236 | No message with the deleted id remains. |
| Messages.RemoveIdExact | script.js:236 | Exactly the messages with that id are removed. Every other message keeps its multiplicity. |
| Messages.RemoveIdAppend | script.js:236 | Removing an id distributes over concatenation, so the remaining messages keep their order. |
| Messages.RemoveIdAbsent | script.js:236 | Removing an id that no message has leaves the list unchanged. |
| Messages.IdsOfRemoveId | script.js:236 | The ids after the removal are the old ids with that id filtered out. |
| Messages.RemoveUniqueIdRemovesOne | script.js:236 | When the ids are distinct and the id is present, exactly one message disappears. |
| Messages.UniqueIdsAfterRemove | script.js:233-236 | Deleting a message keeps message ids unique across the whole store. |
| Messages.UniqueIdsAfterAppend | script.js:287-290 | Appending a message with a fresh id keeps ids unique across the store. |
| Messages.UniqueIdsAfterDrop | script.js:100-101 | Giving a category an empty list, or deleting its list, keeps ids unique. |
| Messages.ResolveItem | script.js:349-365 | Resolving one message keeps its id and url and never leaves it pending. A message that was not pending is untouched. A pending one becomes `ok` exactly when the preview fetch succeeds, and then its title, description and image are the fetched preview's. On failure only its status changes, to `error`. |
| Messages.ResolveList | script.js:348-367 | Resolving a list keeps its length. |
| Messages.ResolveListSettles | script.js:348-367 | After resolution nothing is pending, the ids and their order are unchanged, and every item that was not pending is unchanged. |
| Messages.ResolveListIdempotent | script.js:348-367 | A second pass changes nothing. |
| Messages.ResolveListChangesIffPending | script.js:349-365 | A list changes exactly when it held a pending item. |
| Messages.Synced | script.js:346-368 | Resolving every listed category keeps the set of categories with lists. |
| Messages.SyncedSettles | script.js:343-369 | After the sync no listed category holds a pending item. Lists of unlisted categories are untouched. The store changes exactly when some listed category had a pending item. |
| Messages.UniqueIdsAfterSync | script.js:352 | Resolving previews keeps ids unique. |
| LinkStore.MoveToFront | script.js:125 | The selected name is first and does not occur again. |
| LinkStore.MoveToFrontSpec | script.js:123-126 | After the move, the name occurs exactly once. The list holds the old names plus the selected one, and the others keep their relative order. |
| LinkStore.MoveToFrontIdempotent | script.js:123-126 | Selecting the same category twice equals selecting it once. |
| LinkStore.MoveToFrontDistinct | script.js:125 | The MRU move keeps category names distinct. |
| LinkStore.NextActive | script.js:115 | The category activated after deleting the active one is non-empty. It is `categories[0]` when that is a non-empty name, and `General` exactly when the list is empty or its first name is empty. |
| LinkStore.Loaded | script.js:372-389 | Without a usable document the result is the initial `General` state. Otherwise the stored categories are kept when the list is non-empty, and `["General"]` replaces an empty or missing list. The active category is the stored one when non-empty, else the first category. Every category has a list, every stored list is kept, and every other key is a category given an empty list. |
| LinkStore.StartUp | script.js:36-40 | The active category becomes `lastCategory \|\| categories[0]` and `links` is unchanged. When that name is non-empty the categories become `MoveToFront` of it; when it is empty the order is unchanged. |
| LinkStore.StartUpMovesToFront | script.js:38-40 | After the start-up move a non-empty active name is first and occurs once, no name is gained or lost besides it, and the other names keep their order. |
| LinkStore.NormalizeLinks | script.js:381 | Every category gets a list. Existing lists are kept unchanged, and added lists are empty. No other key appears. |
| LinkStore.LoadState | script.js:372-389 | The loaded state has at least one category, and every loaded category has a list. Stored lists are kept. Without a usable document the result is the initial `General` state. |
| LinkStore.StartUpIsMru | script.js:36-40 | After start-up the active category is first and occurs once, and no list is touched. With no stored document the state is the initial one. |
| LinkStore.StartUpCanListCategoryWithoutList | script.js:36-40 | A stored `lastCategory` missing from `categories` ends up listed, but it has no message list. |
| LinkStore.ChooseMeta | script.js:279-286 | The metadata is always for the sent url. A matching instant preview is used as it is. Otherwise, online, it is the fetched preview, or on a failed fetch an `error` record titled with the url with empty description and image. Offline it is a `pending` record of the same shape. |
| LinkStore.ComposeMessage | script.js:287 | The message carries the id, url, status, image and description. Its title is the preview title, or the url when that title is empty, so a message with a url is never untitled. |
| LinkStore.SentStatus | script.js:279-287 | A message sent without a matching instant preview is pending exactly when it is sent offline. Online with a successful fetch it is `ok` with the fetched description and image, and the fetched title or else the url. Offline or after a failed fetch it is titled with the url and has empty description and image. |
| LinkStore.PrepareSend | script.js:271-287 | Nothing is sent exactly when the input (or the instant preview's url) trims to empty. The send is refused exactly when the normalised url is rejected. Otherwise the message is `ComposeMessage` of the generated id, the normalised url and the `ChooseMeta` metadata for it. |
| LinkStore.PrepareSendSpec | script.js:271-287 | A sent message has the given id and the normalised url, which is non-empty and accepted, and its title is non-empty. |
| LinkStore.NormalizedNonEmpty | script.js:272-274 | A non-empty trimmed input normalises to a non-empty url. |
| LinkStore.Store.Open | script.js:5 | Start-up state is the loaded document after the activation and MRU fix-up. The initial document is saved only when none was stored. |
| LinkStore.Store.SaveState | script.js:391-393 | The saved snapshot equals the current state. |
| LinkStore.Store.SetCurrentCategory | script.js:136-139 | Only `lastCategory` changes, and it becomes the name. |
| LinkStore.Store.AddCategory | script.js:96-103 | An empty or duplicate trimmed name changes nothing and saves nothing. Otherwise the name is put first, ahead of the old list unchanged. It gets an empty list and becomes active, and the state is saved. Distinct names and unique ids are preserved. |
| LinkStore.Store.DeleteCategory | script.js:111-118 | Every occurrence of the name and its list are removed, and the others keep their order and lists. If the deleted category was active, the new first category becomes active, or `General`, with no list created. Otherwise the active category is unchanged. The state is saved. |
| LinkStore.Store.OnDeleteCategoryClick | script.js:78-87 | A click with no name, on `General`, or not confirmed changes nothing. Otherwise it deletes as `DeleteCategory`. `General` is never removed. |
| LinkStore.Store.SelectCategory | script.js:123-127 | The categories become `[name] + (old without name)` and the name becomes active. Lists are untouched, and the state is saved. |
| LinkStore.Store.DeleteMessage | script.js:233-237 | Exactly the messages with that id are filtered out of the active list. Other categories are untouched, and an absent id leaves the list's contents alone. The state is saved and ids stay unique. |
| LinkStore.Store.AppendMessage | script.js:287-291 | A message with a fresh id is appended to the end of the active list, and the list is created if missing. Earlier messages and other categories are unchanged. The state is saved, and ids stay unique. |
| LinkStore.Store.Send | script.js:271-291 | The outcome is `PrepareSend`'s. When it is a message, exactly that message is appended as `AppendMessage` does. Otherwise nothing changes and nothing is saved. Ids stay unique. |
| LinkStore.Store.SyncCategory | script.js:347-367 | One category's list is resolved item by item in place. The result reports whether it held a pending item. |
| LinkStore.Store.SyncAll | script.js:346-368 | Visiting the listed categories in order leaves the store as `Synced`. The result reports whether any visited list held a pending item. |
| LinkStore.Store.SyncPendingPreviews | script.js:343-370 | Offline nothing happens. Online, the store becomes `Synced`, whose properties are proved by `SyncedSettles` and `UniqueIdsAfterSync`: every pending item of every listed category ends `ok` or `error`, and nothing else changes. The state is saved exactly when something changed, that is, when some listed category held a pending item. |
| ServiceWorker.RouteOf | service-worker.js:25-74 | A non-GET request is ignored. A GET navigation goes network-first. A same-origin GET goes to the asset strategy, and any other GET is cross-origin. |
| ServiceWorker.MatchAll | service-worker.js:46-49 | `caches.match` finds an entry exactly when some bucket holds the key. It returns the entry of the first such bucket in creation order. |
| ServiceWorker.Lookup | service-worker.js:62 | A lookup in one bucket finds an entry exactly when that bucket holds the key. |
| ServiceWorker.MatchAllSingle | service-worker.js:46 | With a single bucket, matching across buckets is a lookup in that bucket. |
| ServiceWorker.NavigationFallback | service-worker.js:45-51 | The offline navigation reply is the cached shell, else the cached request, else `Response.error()`. It is never `undefined`. |
| ServiceWorker.AssetReply | service-worker.js:67 | As written: the reply is the cached entry, else the network response, else `undefined`. It is `undefined` exactly when both miss, because the shell fallback is unreachable. |
| ServiceWorker.IntendedAssetReply | service-worker.js:67 | Corrected: the reply is the cached entry, else the network response, else the cached shell. It is `undefined` only when all three miss. |
| ServiceWorker.AssetRepliesDiffer | service-worker.js:67 | The two replies differ exactly when the cache and the network both miss while the shell is cached. |
| ServiceWorker.OpenedNames | service-worker.js:13 | Opening an existing bucket leaves the name list unchanged. A new bucket's name is appended last, keeping creation order, and the names stay distinct. |
| ServiceWorker.OpenedBuckets | service-worker.js:13 | Opening a bucket keeps existing buckets and creates an empty one only when missing. |
| ServiceWorker.PutEntry | service-worker.js:43 | `cache.put` sets one key of one bucket. Every other key and bucket is unchanged. |
| ServiceWorker.InstalledBuckets | service-worker.js:11-16 | Install always opens the bucket. When every asset is fetched with an ok status, each of the six assets is stored, the bucket gains no other key and its other entries keep their responses. Otherwise nothing is stored, and other buckets are untouched. |
| ServiceWorker.KeepOnly | service-worker.js:18-23 | Activation keeps exactly the current bucket, with its contents. |
| ServiceWorker.KeepOnlyIdempotent | service-worker.js:20 | Activating twice equals activating once. |
| ServiceWorker.OfflineNavigationServesShell | service-worker.js:45-51 | After a complete install and an activate, an offline navigation is answered with the precached shell. |
| ServiceWorker.OfflineAssetIsUndefined | service-worker.js:61-67 | After a complete install and an activate, an offline same-origin request for an uncached URL is answered with `undefined`, even though the shell is cached. |
| ServiceWorker.OfflineAssetServesShell | service-worker.js:67 | Under the same conditions, the corrected reply serves the shell. |
| ServiceWorker.CacheStorage.Open | service-worker.js:13 | `caches.open` is modelled by `OpenedNames` and `OpenedBuckets`. |
| ServiceWorker.CacheStorage.Put | service-worker.js:43 | `cache.put` is modelled by `PutEntry`. |
| ServiceWorker.CacheStorage.Delete | service-worker.js:20 | `caches.delete` reports whether the bucket existed. It removes the bucket and its name, and nothing else. |
| ServiceWorker.CacheStorage.Match | service-worker.js:46-49 | Searching the buckets in creation order returns `MatchAll`. |
| ServiceWorker.CacheStorage.Install | service-worker.js:11-16 | The bucket is opened. The buckets then become `InstalledBuckets`, all six assets or none. The result reports whether every asset was fetched with an ok status. |
| ServiceWorker.CacheStorage.Activate | service-worker.js:18-23 | Every bucket whose name differs from `linksaver-chat-v2` is deleted, and that bucket is kept with its contents. |
| ServiceWorker.CacheStorage.HandleFetch | service-worker.js:25-74 | A non-GET or cross-origin non-navigation request is passed through with no cache change. A successful navigation returns the fresh shell and stores a copy. A failed navigation returns `NavigationFallback` with no cache change. A same-origin asset request returns `AssetReply`, and a successful fetch refreshes the cache entry. |

## Left out

- Rendering and UI wiring are presentation only and hold no state of the store. This covers the dropdown, the message bubbles, scrolling, the animations, `alert` and `confirm` (a `confirm` answer is the `confirmed` parameter), and the instant-preview panel and paste handler (its preview is the `current` parameter).
- Storage is not modelled byte for byte. `localStorage` and JSON are replaced by a snapshot field and a parsed-document record, so storage errors do not appear. `saveState` ignores them (script.js:392), which the model matches by always recording the snapshot. A stored document whose fields have the wrong JSON type (a non-object `links`, a non-string `lastCategory`) is not modelled: `RawDocument` only distinguishes usable, absent or falsy fields.
- The preview provider's HTTP request, `encodeURIComponent` and `res.json()` are foreign calls. Their outcome is the parameter `response` or `respond`.
- `new URL(...)` is a foreign call. Whether it accepts a string is the parameter `isLikelyUrl`, and the hostname it extracts is the parameter `hostname`.
- `Date.now()` and `Math.random()` are clocks and randomness. The message id is a parameter that must not clash with an existing id.
- `navigator.onLine` is the parameter `online`.
- LinkStore.Store.Open: a failing initial write (script.js:387, reached when no document is stored) is not caught in the app. It aborts start-up and no handler is attached. The model does not capture this: `Open` always yields a working store.
- Interleaving is not modelled. `onSend` and `syncPendingPreviews` both await mid-way and may interleave, but each is modelled as running to completion. Within a sync, the outcome for the message at position `k` of category `c` is `respond(c, k)`.
- The `General` guard of the click handler: `DeleteCategory` itself accepts `General`, as the code does. The refusal is modelled only in `OnDeleteCategoryClick`.
- LinkStore.Store.AppendMessage: the push onto a shared array object is modelled as a map update, so aliasing of message lists between categories is not captured; the code never creates such aliases.
- Category names that are property names of `Object.prototype` (such as `__proto__`) are not modelled. `links` is a plain JavaScript object in the code, and assigning such a key reaches the prototype rather than creating an own entry, so `JSON.stringify` drops its messages and the next start-up fails. The model treats `links` as a map in which every name is an ordinary key.
- Service-worker platform plumbing is not modelled: `skipWaiting`, `clients.claim`, `waitUntil` and `respondWith` promise mechanics, and worker registration. The 4-second `AbortController` timeout on navigations is treated as a failed fetch.
- Cache keys are request URLs as strings. Relative URL resolution of `./…` against the worker's scope is taken as the identity. The request-matching options of the Cache API (query ignoring, `Vary`) are not modelled.
- `cache.put` rejections are not modelled: a `206` response and `Vary: *` are assumed not to occur. Its unawaited writes are applied before the reply in the model, so the model shows the state after every write has settled.
- A failed install rejects `waitUntil` and the browser discards the new worker. The model records only the bucket effect and whether the install succeeded.

### Behaviour one might expect that the code does not have (the model follows the code)

- There is no virtual `Starred` category, no message with several links, no fallback across several preview providers and no preview cache: one link per message and a single provider.
- Not every category is guaranteed a message list. In the code a stored `lastCategory` missing from `categories` is moved to the front at start-up but gets no list (`LinkStore.StartUpCanListCategoryWithoutList`). Deleting the active last category also activates `General` without creating its list. The model therefore reads missing lists as empty (`ListOf`) and does not claim that invariant.
- `deleteCategory` itself does not refuse `General`: the refusal lives only in the click handler (script.js:81-84).

## Findings

| source | as written | input that shows it | evidently intended | confidence | as-written member | corrected member |
|---|---|---|---|---|---|---|
| service-worker.js:67 | A same-origin request is answered with `cached \|\| networkPromise \|\| caches.match('./index.html')`. The promise is always truthy, so the cached-shell fallback is never reached, and a cache miss while offline yields `undefined`. | After a complete install and an activate, an offline GET for a same-origin URL that is not precached. | The cached shell is served when both the cache entry and the network are missing. | not executed | ServiceWorker.OfflineAssetIsUndefined | ServiceWorker.OfflineAssetServesShell |

`ServiceWorker.CacheStorage.HandleFetch` keeps the as-written reply (`ServiceWorker.AssetReply`), so that it states what the deployed worker does. `ServiceWorker.IntendedAssetReply` is the corrected reply, and `ServiceWorker.AssetRepliesDiffer` proves that the two differ only in the offline cache-miss case.
