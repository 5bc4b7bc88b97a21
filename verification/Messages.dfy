/** Message lists of script.js: the per-category `links` map, deleting a message by id,
    appending a sent message, and resolving pending previews. */
module Messages {
  import opened Wrappers
  import opened Seqs
  import opened Preview

  /** One saved link: `{id, url, title, image, description, status}`. */
  datatype Message = Message(
    id: string, url: string, title: string, image: string, description: string, status: Status)

  /** `state.links`: category name to its messages, oldest first. */
  type Links = map<string, seq<Message>>

  /** `state.links[c] || []`. */
  function ListOf(links: Links, c: string): seq<Message> {
    if c in links then links[c] else []
  }

  // ----- identifiers -----

  function Ids(list: seq<Message>): (r: seq<string>)
    ensures |r| == |list|
  {
    seq(|list|, i requires 0 <= i < |list| => list[i].id)
  }

  /** No id occurs twice in one list. */
  predicate DistinctIds(list: seq<Message>) {
    Distinct(Ids(list))
  }

  /** Every message id is unique store-wide: within a list and across lists. */
  ghost predicate UniqueIds(links: Links) {
    && (forall c | c in links :: DistinctIds(links[c]))
    && (forall c, d, m, n | c in links && d in links && c != d && m in links[c] && n in links[d] :: m.id != n.id)
  }

  /** `id` is carried by no message of the store. */
  ghost predicate FreshId(links: Links, id: string) {
    forall c, m | c in links && m in links[c] :: m.id != id
  }

  // ----- deleting a message -----

  /** `list.filter(m => m.id !== id)`. */
  function RemoveId(list: seq<Message>, id: string): (r: seq<Message>)
    ensures forall m | m in r :: m.id != id
  {
    Filter(list, (m: Message) => m.id != id)
  }

  /** Deleting by id removes every message with that id and keeps every other one with its
      multiplicity. */
  lemma RemoveIdExact(list: seq<Message>, id: string, m: Message)
    ensures multiset(RemoveId(list, id))[m] == if m.id == id then 0 else multiset(list)[m]
  {
    FilterCount(list, (m: Message) => m.id != id, m);
  }

  /** The messages left keep their relative order: deleting from a concatenation deletes from
      each part. */
  lemma RemoveIdAppend(a: seq<Message>, b: seq<Message>, id: string)
    ensures RemoveId(a + b, id) == RemoveId(a, id) + RemoveId(b, id)
  {
    FilterAppend(a, b, (m: Message) => m.id != id);
  }

  /** Deleting an id nobody carries is a no-op. */
  lemma RemoveIdAbsent(list: seq<Message>, id: string)
    requires forall m | m in list :: m.id != id
    ensures RemoveId(list, id) == list
  {
    FilterKeepsAll(list, (m: Message) => m.id != id);
  }

  /** The ids left are the old ids with `id` filtered out. */
  lemma {:induction false} IdsOfRemoveId(list: seq<Message>, id: string)
    ensures Ids(RemoveId(list, id)) == Filter(Ids(list), (x: string) => x != id)
  {
    if list != [] {
      IdsOfRemoveId(list[1..], id);
      assert Ids(list)[1..] == Ids(list[1..]);
      assert Ids(list) == [list[0].id] + Ids(list[1..]);
      assert RemoveId(list, id) == (if list[0].id != id then [list[0]] else []) + RemoveId(list[1..], id);
      var rest := RemoveId(list[1..], id);
      if list[0].id != id {
        assert Ids([list[0]] + rest) == [list[0].id] + Ids(rest);
      }
    }
  }

  /** When ids are unique, deleting one that is present removes exactly one message. */
  lemma {:induction false} RemoveUniqueIdRemovesOne(list: seq<Message>, id: string, k: nat)
    requires DistinctIds(list)
    requires k < |list| && list[k].id == id
    ensures |RemoveId(list, id)| == |list| - 1
  {
    var ids := Ids(list);
    assert ids[k] == id;
    if k == 0 {
      forall m | m in list[1..] ensures m.id != id {
        var j :| 0 <= j < |list[1..]| && list[1..][j] == m;
        assert ids[j + 1] == m.id && ids[0] == id;
      }
      RemoveIdAbsent(list[1..], id);
      assert list == [list[0]] + list[1..];
      RemoveIdAppend([list[0]], list[1..], id);
    } else {
      assert list[0].id != id by { assert ids[0] == list[0].id; }
      assert DistinctIds(list[1..]) by {
        assert Ids(list[1..]) == ids[1..];
      }
      RemoveUniqueIdRemovesOne(list[1..], id, k - 1);
      assert list == [list[0]] + list[1..];
      RemoveIdAppend([list[0]], list[1..], id);
    }
  }

  /** Deleting a message from one list keeps all ids unique. */
  lemma UniqueIdsAfterRemove(links: Links, cat: string, id: string)
    requires UniqueIds(links)
    ensures UniqueIds(links[cat := RemoveId(ListOf(links, cat), id)])
  {
    var list := ListOf(links, cat);
    var links' := links[cat := RemoveId(list, id)];
    IdsOfRemoveId(list, id);
    FilterDistinct(Ids(list), (x: string) => x != id);
    forall m | m in RemoveId(list, id) ensures m in list {
      FilterMembers(list, (m: Message) => m.id != id, m);
    }
  }

  /** Appending a message whose id is fresh keeps all ids unique. */
  lemma UniqueIdsAfterAppend(links: Links, cat: string, m: Message)
    requires UniqueIds(links) && FreshId(links, m.id)
    ensures UniqueIds(links[cat := ListOf(links, cat) + [m]])
  {
    var list := ListOf(links, cat);
    var list' := list + [m];
    assert Ids(list') == Ids(list) + [m.id];
    forall i, j | 0 <= i < j < |list'| ensures Ids(list')[i] != Ids(list')[j] {
      if j == |list| {
        assert list[i] in links[cat];
      }
    }
  }

  /** Replacing one list by an empty one, or removing it, keeps all ids unique. */
  lemma UniqueIdsAfterDrop(links: Links, cat: string)
    requires UniqueIds(links)
    ensures UniqueIds(links[cat := []]) && UniqueIds(links - {cat})
  {
    assert DistinctIds([]) by { assert Ids([]) == []; }
  }

  // ----- resolving pending previews -----

  /** One iteration of the inner loop of `syncPendingPreviews` on one message: a pending message
      is resolved, to `ok` with the fetched title, description and image, or to `error`; any
      other message is left alone. */
  function ResolveItem(m: Message, response: ProviderResponse, hostname: string -> Option<string>): (r: Message)
    ensures r.id == m.id && r.url == m.url
    ensures r.status != Pending
    ensures m.status != Pending ==> r == m
    ensures m.status == Pending ==> (r.status == Ok <==> FetchPreview(m.url, response, hostname).Some?)
    ensures r.status == Error ==> r == m.(status := Error)
    ensures m.status == Pending && FetchPreview(m.url, response, hostname).Some? ==>
      var p := FetchPreview(m.url, response, hostname).value;
      r == m.(title := p.title, description := p.description, image := p.image, status := Ok)
  {
    if m.status != Pending then m
    else match FetchPreview(m.url, response, hostname)
      case Some(p) => m.(title := p.title, description := p.description, image := p.image, status := Ok)
      case None => m.(status := Error)
  }

  /** The list after every position `k` has been visited with the outcome `respond(c, k)`. */
  function ResolveList(list: seq<Message>, c: string, respond: (string, nat) -> ProviderResponse,
                       hostname: string -> Option<string>): (r: seq<Message>)
    ensures |r| == |list|
  {
    seq(|list|, k requires 0 <= k < |list| => ResolveItem(list[k], respond(c, k), hostname))
  }

  predicate HasPending(list: seq<Message>) {
    exists k | 0 <= k < |list| :: list[k].status == Pending
  }

  /** After resolution nothing is pending, every id and url is where it was, and what was
      not pending is untouched. */
  lemma ResolveListSettles(list: seq<Message>, c: string, respond: (string, nat) -> ProviderResponse,
                           hostname: string -> Option<string>)
    ensures !HasPending(ResolveList(list, c, respond, hostname))
    ensures Ids(ResolveList(list, c, respond, hostname)) == Ids(list)
    ensures forall k | 0 <= k < |list| && list[k].status != Pending :: ResolveList(list, c, respond, hostname)[k] == list[k]
  {
    var r := ResolveList(list, c, respond, hostname);
    forall k | 0 <= k < |list| ensures r[k] == ResolveItem(list[k], respond(c, k), hostname) {
    }
    assert Ids(r) == Ids(list) by {
      forall k | 0 <= k < |list| ensures Ids(r)[k] == Ids(list)[k] {
      }
    }
  }

  /** Resolving a second time changes nothing. */
  lemma ResolveListIdempotent(list: seq<Message>, c: string, respond: (string, nat) -> ProviderResponse,
                              hostname: string -> Option<string>)
    ensures ResolveList(ResolveList(list, c, respond, hostname), c, respond, hostname)
         == ResolveList(list, c, respond, hostname)
  {
    var r := ResolveList(list, c, respond, hostname);
    var r2 := ResolveList(r, c, respond, hostname);
    forall k | 0 <= k < |list| ensures r2[k] == r[k] {
      assert r[k] == ResolveItem(list[k], respond(c, k), hostname);
      assert r2[k] == ResolveItem(r[k], respond(c, k), hostname);
    }
  }

  /** Resolution changes a list exactly when the list holds a pending message. */
  lemma ResolveListChangesIffPending(list: seq<Message>, c: string, respond: (string, nat) -> ProviderResponse,
                                     hostname: string -> Option<string>)
    ensures ResolveList(list, c, respond, hostname) != list <==> HasPending(list)
  {
    var r := ResolveList(list, c, respond, hostname);
    if HasPending(list) {
      var k :| 0 <= k < |list| && list[k].status == Pending;
      assert r[k] == ResolveItem(list[k], respond(c, k), hostname);
      assert r[k].status != list[k].status;
    } else {
      forall k | 0 <= k < |list| ensures r[k] == list[k] {
        assert r[k] == ResolveItem(list[k], respond(c, k), hostname);
      }
      assert r == list;
    }
  }

  /** The whole map after a sweep over the categories `cats`. */
  function Synced(links: Links, cats: seq<string>, respond: (string, nat) -> ProviderResponse,
                  hostname: string -> Option<string>): (r: Links)
    ensures r.Keys == links.Keys
  {
    map c | c in links :: if c in cats then ResolveList(links[c], c, respond, hostname) else links[c]
  }

  /** Some category of `cats` holds a pending message. */
  ghost predicate AnyPending(links: Links, cats: seq<string>) {
    exists c | c in cats && c in links :: HasPending(links[c])
  }

  /** A sweep leaves nothing pending in a swept category, leaves every other category as it was,
      and changes the map exactly when some swept category held a pending message. */
  lemma SyncedSettles(links: Links, cats: seq<string>, respond: (string, nat) -> ProviderResponse,
                      hostname: string -> Option<string>)
    ensures forall c | c in cats && c in links :: !HasPending(Synced(links, cats, respond, hostname)[c])
    ensures forall c | c in links && c !in cats :: Synced(links, cats, respond, hostname)[c] == links[c]
    ensures Synced(links, cats, respond, hostname) != links <==> AnyPending(links, cats)
  {
    var r := Synced(links, cats, respond, hostname);
    forall c | c in cats && c in links ensures !HasPending(r[c]) {
      ResolveListSettles(links[c], c, respond, hostname);
    }
    if AnyPending(links, cats) {
      var c :| c in cats && c in links && HasPending(links[c]);
      ResolveListChangesIffPending(links[c], c, respond, hostname);
      assert r[c] != links[c];
    } else {
      forall c | c in links ensures r[c] == links[c] {
        if c in cats {
          ResolveListChangesIffPending(links[c], c, respond, hostname);
        }
      }
      assert r == links;
    }
  }

  /** A sweep keeps all ids unique. */
  lemma UniqueIdsAfterSync(links: Links, cats: seq<string>, respond: (string, nat) -> ProviderResponse,
                           hostname: string -> Option<string>)
    requires UniqueIds(links)
    ensures UniqueIds(Synced(links, cats, respond, hostname))
  {
    var r := Synced(links, cats, respond, hostname);
    forall c | c in r ensures Ids(r[c]) == Ids(links[c]) {
      ResolveListSettles(links[c], c, respond, hostname);
    }
    forall c: string, m: Message | c in r && m in r[c] ensures exists m': Message | m' in links[c] :: m'.id == m.id {
      var k :| 0 <= k < |r[c]| && r[c][k] == m;
      assert Ids(r[c])[k] == Ids(links[c])[k];
      assert links[c][k] in links[c];
    }
  }

  /** One step of the sweep: visiting category `c` after `cats` resolves `c`'s current list,
      whether or not `c` was visited before. */
  lemma SyncedStep(links: Links, cats: seq<string>, c: string, respond: (string, nat) -> ProviderResponse,
                   hostname: string -> Option<string>)
    requires c in links
    ensures var s := Synced(links, cats, respond, hostname);
      Synced(links, cats + [c], respond, hostname) == s[c := ResolveList(s[c], c, respond, hostname)]
  {
    ResolveListIdempotent(links[c], c, respond, hostname);
  }

  /** The `changed` flag across one step of the sweep. */
  lemma AnyPendingStep(links: Links, cats: seq<string>, c: string, respond: (string, nat) -> ProviderResponse,
                       hostname: string -> Option<string>)
    requires c in links
    ensures AnyPending(links, cats + [c])
        <==> AnyPending(links, cats) || HasPending(Synced(links, cats, respond, hostname)[c])
  {
    if c in cats {
      ResolveListSettles(links[c], c, respond, hostname);
      assert AnyPending(links, cats + [c]) ==> AnyPending(links, cats);
    }
    if AnyPending(links, cats) {
      var d :| d in cats && d in links && HasPending(links[d]);
      assert d in cats + [c];
    }
  }

  /** Visiting a category without a list changes neither the sweep nor the flag. */
  lemma SyncedSkip(links: Links, cats: seq<string>, c: string, respond: (string, nat) -> ProviderResponse,
                   hostname: string -> Option<string>)
    requires c !in links
    ensures Synced(links, cats + [c], respond, hostname) == Synced(links, cats, respond, hostname)
    ensures AnyPending(links, cats + [c]) == AnyPending(links, cats)
  {
    var s, s' := Synced(links, cats, respond, hostname), Synced(links, cats + [c], respond, hostname);
    forall d | d in links ensures s'[d] == s[d] {
      assert d in cats + [c] <==> d in cats;
    }
    if AnyPending(links, cats) {
      var d :| d in cats && d in links && HasPending(links[d]);
      assert d in cats + [c];
    }
  }
}
