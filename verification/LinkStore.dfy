/** The single state record of script.js (`categories`, `lastCategory`, `links`) and the
    operations that mutate it in place. Adding, deleting and selecting a category and deleting or
    sending a message end with `saveState()`; resolving previews saves only when a message changed;
    activating a category on its own and the start-up front-move do not save. A save is modelled
    as recording a snapshot of the state in `saved`. */
module LinkStore {
  import opened Wrappers
  import opened Seqs
  import opened JsText
  import opened Urls
  import opened Preview
  import opened Messages

  const DefaultCategory: string := "General"

  /** A snapshot of the state record, as written to storage. */
  datatype StoreState = StoreState(categories: seq<string>, lastCategory: string, links: Links)

  /** The stored document as parsed. `categories` is `None` when it is not an array;
      `lastCategory` is `""` when absent or falsy; `links` is `None` when absent or falsy. */
  datatype RawDocument = RawDocument(categories: Option<seq<string>>, lastCategory: string, links: Option<Links>)

  // ----- category order -----

  /** `[name, ...categories.filter(c => c !== name)]`: most-recently-used order. */
  function MoveToFront(cats: seq<string>, name: string): (r: seq<string>)
    ensures |r| > 0 && r[0] == name
    ensures name !in r[1..]
  {
    [name] + Without(cats, name)
  }

  /** After moving `name` to the front, it occurs exactly once, the list holds the same names as
      before plus `name`, and the other names keep their relative order. */
  lemma MoveToFrontSpec(cats: seq<string>, name: string)
    ensures multiset(MoveToFront(cats, name))[name] == 1
    ensures forall y :: y in MoveToFront(cats, name) <==> y == name || y in cats
    ensures Without(MoveToFront(cats, name), name) == Without(cats, name)
  {
    var w := Without(cats, name);
    assert multiset(w)[name] == 0;
    forall y ensures y in MoveToFront(cats, name) <==> y == name || y in cats {
      WithoutMembers(cats, name, y);
    }
    WithoutAppend([name], w, name);
    assert Without([name], name) == [] by {
      assert name !in Without([name], name);
    }
    WithoutAbsent(w, name);
  }

  /** Selecting the same category twice is selecting it once. */
  lemma MoveToFrontIdempotent(cats: seq<string>, name: string)
    ensures MoveToFront(MoveToFront(cats, name), name) == MoveToFront(cats, name)
  {
    MoveToFrontSpec(cats, name);
  }

  /** Moving to the front keeps the names distinct. */
  lemma MoveToFrontDistinct(cats: seq<string>, name: string)
    requires Distinct(cats)
    ensures Distinct(MoveToFront(cats, name))
  {
    var w := Without(cats, name);
    WithoutDistinct(cats, name);
    var r := [name] + w;
    forall i, j | 0 <= i < j < |r| ensures r[i] != r[j] {
      if i == 0 {
        assert r[j] == w[j - 1];
      } else {
        assert r[i] == w[i - 1] && r[j] == w[j - 1];
      }
    }
  }

  /** `categories[0] || 'General'`: the category activated after the active one is deleted. */
  function NextActive(cats: seq<string>): (r: string)
    ensures r != ""
    ensures r == DefaultCategory || (|cats| > 0 && r == cats[0])
    ensures |cats| > 0 && cats[0] != "" ==> r == cats[0]
    ensures |cats| == 0 || cats[0] == "" ==> r == DefaultCategory
  {
    if |cats| > 0 && cats[0] != "" then cats[0] else DefaultCategory
  }

  // ----- loading -----

  /** `links` with an empty list added for every category of `cats` that has none. */
  function WithLists(links: Links, cats: seq<string>): Links {
    map c | c in links.Keys + (set x | x in cats) :: if c in links then links[c] else []
  }

  /** The normalisation loop `for (const c of categories) links[c] = links[c] || []`. */
  method NormalizeLinks(links: Links, cats: seq<string>) returns (r: Links)
    ensures r == WithLists(links, cats)
    ensures forall c | c in cats :: c in r
    ensures forall c | c in links :: c in r && r[c] == links[c]
    ensures forall c | c in r :: c in links || c in cats
    ensures forall c | c in r && c !in links :: r[c] == []
  {
    r := links;
    var i := 0;
    while i < |cats|
      invariant 0 <= i <= |cats|
      invariant r == WithLists(links, cats[..i])
    {
      if cats[i] !in r {
        r := r[cats[i] := []];
      }
      assert cats[..i + 1] == cats[..i] + [cats[i]];
      i := i + 1;
    }
    assert cats[..i] == cats;
  }

  /** The document written on first start. */
  function InitialState(): StoreState {
    StoreState([DefaultCategory], DefaultCategory, map[DefaultCategory := []])
  }

  /** What `loadState` returns for the stored document; `None` stands for no document or one
      that does not parse. */
  function Loaded(stored: Option<RawDocument>): (r: StoreState)
    ensures stored.None? ==> r == InitialState()
    ensures |r.categories| > 0
    ensures stored.Some? && stored.value.categories.Some? && |stored.value.categories.value| > 0 ==>
      r.categories == stored.value.categories.value
    ensures stored.Some? && (stored.value.categories.None? || |stored.value.categories.value| == 0) ==>
      r.categories == [DefaultCategory]
    ensures stored.Some? && stored.value.lastCategory != "" ==> r.lastCategory == stored.value.lastCategory
    ensures stored.Some? && stored.value.lastCategory == "" ==> r.lastCategory == r.categories[0]
    ensures forall c | c in r.categories :: c in r.links
    ensures stored.Some? && stored.value.links.Some? ==>
      forall c | c in stored.value.links.value :: c in r.links && r.links[c] == stored.value.links.value[c]
    ensures stored.Some? ==> forall c | c in r.links && (stored.value.links.None? || c !in stored.value.links.value) ::
      c in r.categories && r.links[c] == []
  {
    match stored
    case None => InitialState()
    case Some(d) =>
      var cats := if d.categories.Some? && |d.categories.value| > 0 then d.categories.value else [DefaultCategory];
      var last := if d.lastCategory != "" then d.lastCategory else cats[0];
      var links := if d.links.Some? then d.links.value else map[];
      StoreState(cats, last, WithLists(links, cats))
  }

  /** `loadState`. */
  method LoadState(stored: Option<RawDocument>) returns (s: StoreState)
    ensures s == Loaded(stored)
    ensures |s.categories| > 0
    ensures forall c | c in s.categories :: c in s.links
    ensures stored.Some? && stored.value.links.Some? ==>
      forall c | c in stored.value.links.value :: s.links[c] == stored.value.links.value[c]
  {
    if stored.None? {
      return InitialState();
    }
    var d := stored.value;
    var cats := if d.categories.Some? && |d.categories.value| > 0 then d.categories.value else [DefaultCategory];
    var last := if d.lastCategory != "" then d.lastCategory else cats[0];
    var links := if d.links.Some? then d.links.value else map[];
    links := NormalizeLinks(links, cats);
    s := StoreState(cats, last, links);
  }

  /** Lines run once at start-up after loading: activate `lastCategory || categories[0]`, then,
      when that name is non-empty, move it to the front of the list. */
  function StartUp(s: StoreState): (r: StoreState)
    requires |s.categories| > 0
    ensures |r.categories| > 0 && r.links == s.links
    ensures s.lastCategory != "" ==> r.lastCategory == s.lastCategory
    ensures s.lastCategory == "" ==> r.lastCategory == s.categories[0]
    ensures r.lastCategory != "" ==> r.categories == MoveToFront(s.categories, r.lastCategory)
    ensures r.lastCategory == "" ==> r.categories == s.categories
  {
    var active := if s.lastCategory != "" then s.lastCategory else s.categories[0];
    var cats := if active != "" then MoveToFront(s.categories, active) else s.categories;
    StoreState(cats, active, s.links)
  }

  /** The start-up front-move: a non-empty active name ends up first and once, no name is gained
      or lost besides it, and the other names keep their order. */
  lemma StartUpMovesToFront(s: StoreState)
    requires |s.categories| > 0
    ensures var r := StartUp(s);
      r.lastCategory != "" ==>
        && r.categories[0] == r.lastCategory
        && multiset(r.categories)[r.lastCategory] == 1
        && (forall c :: c in r.categories <==> c in s.categories || c == r.lastCategory)
        && Without(r.categories, r.lastCategory) == Without(s.categories, r.lastCategory)
  {
    MoveToFrontSpec(s.categories, StartUp(s).lastCategory);
  }

  /** After start-up the active category, when non-empty, is first and occurs once; no list is
      touched; yet the active category need not have a list of its own. */
  lemma StartUpIsMru(stored: Option<RawDocument>)
    ensures var s := StartUp(Loaded(stored));
      && s.links == Loaded(stored).links
      && (s.lastCategory != "" ==> s.categories[0] == s.lastCategory && multiset(s.categories)[s.lastCategory] == 1)
      && (stored.None? ==> s == InitialState())
  {
    var l := Loaded(stored);
    if stored.None? {
      assert Without([DefaultCategory], DefaultCategory) == [] by {
        assert DefaultCategory !in Without([DefaultCategory], DefaultCategory);
      }
    }
    var active := if l.lastCategory != "" then l.lastCategory else l.categories[0];
    MoveToFrontSpec(l.categories, active);
  }

  /** A document whose `lastCategory` is not among its categories yields, after start-up, a
      listed category without a message list. */
  lemma StartUpCanListCategoryWithoutList()
    ensures var s := StartUp(Loaded(Some(RawDocument(Some(["General"]), "Work", Some(map[])))));
      "Work" in s.categories && "Work" !in s.links
  {
    var l := Loaded(Some(RawDocument(Some(["General"]), "Work", Some(map[]))));
    assert l.links.Keys == {"General"};
  }

  // ----- sending -----

  /** `(linkInput.value || currentPreview?.url || '').trim()`. */
  function SendInput(input: string, current: Option<Preview>): string {
    Trim(if input != "" then input else if current.Some? then current.value.url else "")
  }

  /** The metadata a sent message is built from: the instant preview when it is for the same
      URL; else, online, the fetched preview or an error record; else a pending record. */
  function ChooseMeta(url: string, current: Option<Preview>, online: bool, response: ProviderResponse,
                      hostname: string -> Option<string>): (r: Preview)
    ensures r.url == url
    ensures (current.None? || current.value.url != url) ==>
      (r.status == Pending <==> !online) && (r.status == Error ==> r.title == url)
    ensures current.Some? && current.value.url == url ==> r == current.value
    ensures (current.None? || current.value.url != url) && online && FetchPreview(url, response, hostname).Some? ==>
      r == FetchPreview(url, response, hostname).value
    ensures (current.None? || current.value.url != url) && online && FetchPreview(url, response, hostname).None? ==>
      r == Preview(url, url, "", "", Error)
    ensures (current.None? || current.value.url != url) && !online ==> r == Preview(url, url, "", "", Pending)
  {
    if current.Some? && current.value.url == url then current.value
    else if online then
      match FetchPreview(url, response, hostname)
      case Some(p) => p
      case None => Preview(url, url, "", "", Error)
    else Preview(url, url, "", "", Pending)
  }

  /** The message object of `onSend`: `title: meta.title || url`. */
  function ComposeMessage(id: string, url: string, meta: Preview): (r: Message)
    ensures r.id == id && r.url == url && r.status == meta.status
    ensures r.image == meta.image && r.description == meta.description
    ensures url != "" ==> r.title != ""
    ensures meta.title != "" ==> r.title == meta.title
    ensures meta.title == "" ==> r.title == url
  {
    Message(id, url, if meta.title != "" then meta.title else url, meta.image, meta.description, meta.status)
  }

  /** A message sent while offline with no matching instant preview is pending, and nothing
      sent online without one is ever pending. */
  lemma SentStatus(id: string, url: string, current: Option<Preview>, online: bool,
                   response: ProviderResponse, hostname: string -> Option<string>)
    requires current.None? || current.value.url != url
    ensures var m := ComposeMessage(id, url, ChooseMeta(url, current, online, response, hostname));
      (m.status == Pending <==> !online) && m.url == url && m.id == id
    ensures var m := ComposeMessage(id, url, ChooseMeta(url, current, online, response, hostname));
      online && FetchPreview(url, response, hostname).Some? ==>
        var p := FetchPreview(url, response, hostname).value;
        && m.status == Ok && m.description == p.description && m.image == p.image
        && m.title == (if p.title != "" then p.title else url)
    ensures var m := ComposeMessage(id, url, ChooseMeta(url, current, online, response, hostname));
      (!online || FetchPreview(url, response, hostname).None?) ==>
        m.title == url && m.description == "" && m.image == ""
  {
  }

  datatype SendOutcome = NothingToSend | InvalidUrl | Sent(message: Message)

  /** The decisions of `onSend` before the append: nothing to send, an address `new URL` rejects
      (`isLikelyUrl`), or the message to append, whose id is the generated `id`. */
  function PrepareSend(input: string, current: Option<Preview>, online: bool, response: ProviderResponse,
                       hostname: string -> Option<string>, isLikelyUrl: string -> bool, id: string)
    : (r: SendOutcome)
    ensures r == NothingToSend <==> SendInput(input, current) == ""
    ensures r == InvalidUrl <==>
      SendInput(input, current) != "" && !isLikelyUrl(NormalizeUrl(SendInput(input, current)))
    ensures r.Sent? ==>
      var url := NormalizeUrl(SendInput(input, current));
      r.message == ComposeMessage(id, url, ChooseMeta(url, current, online, response, hostname))
  {
    var raw := SendInput(input, current);
    if raw == "" then NothingToSend
    else
      var url := NormalizeUrl(raw);
      if !isLikelyUrl(url) then InvalidUrl
      else Sent(ComposeMessage(id, url, ChooseMeta(url, current, online, response, hostname)))
  }

  /** A sent message carries the generated id and the normalised, non-empty, accepted address,
      and has a title. */
  lemma PrepareSendSpec(input: string, current: Option<Preview>, online: bool, response: ProviderResponse,
                        hostname: string -> Option<string>, isLikelyUrl: string -> bool, id: string)
    ensures var r := PrepareSend(input, current, online, response, hostname, isLikelyUrl, id);
      r.Sent? ==>
        && r.message.id == id
        && r.message.url == NormalizeUrl(SendInput(input, current))
        && r.message.url != "" && isLikelyUrl(r.message.url)
        && r.message.title != ""
  {
    if SendInput(input, current) != "" {
      NormalizedNonEmpty(if input != "" then input else if current.Some? then current.value.url else "");
    }
  }

  /** Normalising a non-empty trimmed string never yields the empty string. */
  lemma NormalizedNonEmpty(s: string)
    requires Trim(s) != ""
    ensures NormalizeUrl(Trim(s)) != ""
  {
    TrimIdempotent(s);
  }

  datatype AddOutcome = EmptyName | DuplicateName | Added(name: string)
  datatype DeleteOutcome = NoName | Protected | Cancelled | Deleted

  class Store {
    var categories: seq<string>
    var lastCategory: string
    var links: Links
    /** The last snapshot written by `saveState` in this session; `None` while only the
        document found at start-up is stored. */
    var saved: Option<StoreState>

    function State(): StoreState
      reads this
    {
      StoreState(categories, lastCategory, links)
    }

    /** Start-up: `loadState()` (which writes the initial document when none is stored),
        then the activation and front-move that follow it. */
    constructor Open(stored: Option<RawDocument>)
      ensures State() == StartUp(Loaded(stored))
      ensures saved == if stored.None? then Some(InitialState()) else None
    {
      var s := LoadState(stored);
      categories, lastCategory, links := s.categories, s.lastCategory, s.links;
      saved := if stored.None? then Some(s) else None;
      new;
      SetCurrentCategory(if lastCategory != "" then lastCategory else categories[0]);
      if lastCategory != "" {
        categories := MoveToFront(categories, lastCategory);
      }
    }

    /** `saveState()`. */
    method SaveState()
      modifies this`saved
      ensures saved == Some(State())
    {
      saved := Some(State());
    }

    /** `setCurrentCategory(name)`. */
    method SetCurrentCategory(name: string)
      modifies this`lastCategory
      ensures lastCategory == name
    {
      lastCategory := name;
    }

    /** `onConfirmAddCategory` with `input` the text typed into the new-category field. */
    method AddCategory(input: string) returns (outcome: AddOutcome)
      modifies this
      ensures var name := Trim(input);
        outcome == (if name == "" then EmptyName else if name in old(categories) then DuplicateName else Added(name))
      ensures !outcome.Added? ==>
        categories == old(categories) && lastCategory == old(lastCategory) && links == old(links) && saved == old(saved)
      ensures outcome.Added? ==>
        && categories == [outcome.name] + old(categories)
        && links == old(links)[outcome.name := []]
        && lastCategory == outcome.name
        && saved == Some(State())
      ensures Distinct(old(categories)) ==> Distinct(categories)
      ensures UniqueIds(old(links)) ==> UniqueIds(links)
    {
      var name := Trim(input);
      if name == "" {
        return EmptyName;
      }
      if name in categories {
        return DuplicateName;
      }
      categories := [name] + categories;
      links := links[name := []];
      SetCurrentCategory(name);
      SaveState();
      outcome := Added(name);
      if Distinct(old(categories)) {
        DistinctCons(name, old(categories));
      }
      if UniqueIds(old(links)) {
        UniqueIdsAfterDrop(old(links), name);
      }
    }

    /** `deleteCategory(name)`: drop the name and its list; if it was active, activate the new
        first category, or `General` (without creating a list for it). */
    method DeleteCategory(name: string)
      modifies this
      ensures categories == Without(old(categories), name)
      ensures links == old(links) - {name}
      ensures lastCategory == if old(lastCategory) == name then NextActive(categories) else old(lastCategory)
      ensures saved == Some(State())
      ensures Distinct(old(categories)) ==> Distinct(categories)
      ensures UniqueIds(old(links)) ==> UniqueIds(links)
    {
      categories := Without(categories, name);
      links := links - {name};
      if lastCategory == name {
        var next := NextActive(categories);
        SetCurrentCategory(next);
      }
      SaveState();
      if Distinct(old(categories)) {
        WithoutDistinct(old(categories), name);
      }
      if UniqueIds(old(links)) {
        UniqueIdsAfterDrop(old(links), name);
      }
    }

    /** The delete button of the category list: ignored without a name, refused for `General`,
        and carried out only once the user confirms. */
    method OnDeleteCategoryClick(name: string, confirmed: bool) returns (outcome: DeleteOutcome)
      modifies this
      ensures outcome == (if name == "" then NoName else if name == DefaultCategory then Protected
                          else if !confirmed then Cancelled else Deleted)
      ensures !outcome.Deleted? ==>
        categories == old(categories) && lastCategory == old(lastCategory) && links == old(links) && saved == old(saved)
      ensures outcome.Deleted? ==>
        && categories == Without(old(categories), name)
        && links == old(links) - {name}
        && lastCategory == (if old(lastCategory) == name then NextActive(categories) else old(lastCategory))
        && saved == Some(State())
      ensures DefaultCategory in old(categories) ==> DefaultCategory in categories
    {
      if name == "" {
        return NoName;
      }
      if name == DefaultCategory {
        return Protected;
      }
      if !confirmed {
        return Cancelled;
      }
      DeleteCategory(name);
      outcome := Deleted;
      WithoutMembers(old(categories), name, DefaultCategory);
    }

    /** `selectCategory(name)`: move the name to the front and activate it. */
    method SelectCategory(name: string)
      modifies this
      ensures categories == MoveToFront(old(categories), name)
      ensures lastCategory == name
      ensures links == old(links)
      ensures saved == Some(State())
      ensures Distinct(old(categories)) ==> Distinct(categories)
    {
      categories := MoveToFront(categories, name);
      SetCurrentCategory(name);
      SaveState();
      if Distinct(old(categories)) {
        MoveToFrontDistinct(old(categories), name);
      }
    }

    /** `deleteMessage(id)`: filter `id` out of the active category's list (creating the key
        when it was missing). */
    method DeleteMessage(id: string)
      modifies this
      ensures links == old(links)[old(lastCategory) := RemoveId(ListOf(old(links), old(lastCategory)), id)]
      ensures categories == old(categories) && lastCategory == old(lastCategory)
      ensures saved == Some(State())
      ensures UniqueIds(old(links)) ==> UniqueIds(links)
    {
      var cat := lastCategory;
      var list := ListOf(links, cat);
      links := links[cat := RemoveId(list, id)];
      SaveState();
      if UniqueIds(old(links)) {
        UniqueIdsAfterRemove(old(links), cat, id);
      }
    }

    /** The append step of `onSend`: `links[cat] = links[cat] || []; links[cat].push(message)`
        for the active category, then save. */
    method AppendMessage(message: Message)
      requires FreshId(links, message.id)
      modifies this
      ensures categories == old(categories) && lastCategory == old(lastCategory)
      ensures links == old(links)[lastCategory := ListOf(old(links), lastCategory) + [message]]
      ensures saved == Some(State())
      ensures UniqueIds(old(links)) ==> UniqueIds(links)
    {
      var cat := lastCategory;
      links := links[cat := ListOf(links, cat) + [message]];
      SaveState();
      if UniqueIds(old(links)) {
        UniqueIdsAfterAppend(old(links), cat, message);
      }
    }

    /** `onSend`: prepare the message as `PrepareSend` does and, when there is one, append it. */
    method Send(input: string, current: Option<Preview>, online: bool, response: ProviderResponse,
                hostname: string -> Option<string>, isLikelyUrl: string -> bool, id: string)
      returns (outcome: SendOutcome)
      requires FreshId(links, id)
      modifies this
      ensures outcome == PrepareSend(input, current, online, response, hostname, isLikelyUrl, id)
      ensures categories == old(categories) && lastCategory == old(lastCategory)
      ensures !outcome.Sent? ==> links == old(links) && saved == old(saved)
      ensures outcome.Sent? ==>
        && links == old(links)[lastCategory := ListOf(old(links), lastCategory) + [outcome.message]]
        && saved == Some(State())
      ensures UniqueIds(old(links)) ==> UniqueIds(links)
    {
      outcome := PrepareSend(input, current, online, response, hostname, isLikelyUrl, id);
      PrepareSendSpec(input, current, online, response, hostname, isLikelyUrl, id);
      if outcome.Sent? {
        AppendMessage(outcome.message);
      }
    }

    /** The inner loop of `syncPendingPreviews` over one category's list: each pending message is
        resolved in place with the outcome `respond(category, position)`. */
    method SyncCategory(category: string, respond: (string, nat) -> ProviderResponse,
                        hostname: string -> Option<string>)
      returns (changed: bool)
      requires category in links
      modifies this`links
      ensures links == old(links)[category := ResolveList(old(links)[category], category, respond, hostname)]
      ensures changed == HasPending(old(links)[category])
    {
      var list := links[category];
      ghost var orig := list;
      ghost var target := ResolveList(orig, category, respond, hostname);
      changed := false;
      var j := 0;
      while j < |list|
        invariant 0 <= j <= |list| == |orig| == |target|
        invariant forall k | 0 <= k < j :: list[k] == target[k]
        invariant forall k | j <= k < |list| :: list[k] == orig[k]
        invariant links == old(links)[category := list]
        invariant changed <==> exists k | 0 <= k < j :: orig[k].status == Pending
      {
        var item := list[j];
        if item.status == Pending {
          match FetchPreview(item.url, respond(category, j), hostname) {
            case Some(meta) =>
              item := item.(title := meta.title, description := meta.description, image := meta.image, status := Ok);
            case None =>
              item := item.(status := Error);
          }
          list := list[j := item];
          links := links[category := list];
          changed := true;
        }
        assert target[j] == ResolveItem(orig[j], respond(category, j), hostname);
        assert list[j] == target[j];
        j := j + 1;
      }
      assert list == target;
    }

    /** The outer loop of `syncPendingPreviews`: every listed category, in order, that has a
        list is resolved in place. */
    method SyncAll(respond: (string, nat) -> ProviderResponse, hostname: string -> Option<string>)
      returns (changed: bool)
      modifies this`links
      ensures links == Synced(old(links), categories, respond, hostname)
      ensures changed <==> AnyPending(old(links), categories)
    {
      changed := false;
      var i := 0;
      while i < |categories|
        invariant 0 <= i <= |categories|
        invariant links == Synced(old(links), categories[..i], respond, hostname)
        invariant changed <==> AnyPending(old(links), categories[..i])
      {
        var category := categories[i];
        assert categories[..i + 1] == categories[..i] + [category];
        if category in links {
          var changedHere := SyncCategory(category, respond, hostname);
          changed := changed || changedHere;
          SyncedStep(old(links), categories[..i], category, respond, hostname);
          AnyPendingStep(old(links), categories[..i], category, respond, hostname);
        } else {
          SyncedSkip(old(links), categories[..i], category, respond, hostname);
        }
        i := i + 1;
      }
      assert categories[..i] == categories;
    }

    /** `syncPendingPreviews`: when online, visit every listed category in order and resolve each
        pending message with the outcome `respond(category, position)`; save once, and only if
        something changed. */
    method SyncPendingPreviews(online: bool, respond: (string, nat) -> ProviderResponse,
                               hostname: string -> Option<string>)
      returns (changed: bool)
      modifies this
      ensures categories == old(categories) && lastCategory == old(lastCategory)
      ensures links == if online then Synced(old(links), categories, respond, hostname) else old(links)
      ensures changed <==> online && AnyPending(old(links), categories)
      ensures changed <==> links != old(links)
      ensures saved == if changed then Some(State()) else old(saved)
    {
      if !online {
        return false;
      }
      changed := SyncAll(respond, hostname);
      SyncedSettles(old(links), categories, respond, hostname);
      if changed {
        SaveState();
      }
    }
  }
}
