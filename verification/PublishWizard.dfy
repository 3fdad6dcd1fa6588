/** The publish wizard: the four draft lists, and the publish run that turns wizard ids into database ids. */
module PublishWizard {
  import opened Wrappers

  /** An entry of one of the four steps. */
  datatype Item =
    | Provider(id: string, name: string)
    | Catalog(id: string, name: string, providerId: string)
    | Resource(id: string, name: string, providerId: string)
    | Offer(id: string, resourceIds: seq<string>)

  /** The white space and line terminators that JavaScript trims. */
  predicate IsSpace(c: char) {
    c in {'\t', '\n', '\U{000B}', '\U{000C}', '\r', ' ', '\U{00A0}', '\U{1680}', '\U{2028}', '\U{2029}', '\U{202F}',
          '\U{205F}', '\U{3000}', '\U{FEFF}'} || '\U{2000}' <= c <= '\U{200A}'
  }

  /** White space by code point (sections 12.2 and 12.3 of ECMA-262). */
  lemma SpaceCodes(c: char)
    ensures IsSpace(c) <==>
      c as int in {9, 10, 11, 12, 13, 32, 160, 5760, 8232, 8233, 8239, 8287, 12288, 65279} || 8192 <= c as int <= 8202
  {
  }

  function Trim(s: string): string {
    if s == "" then s
    else if IsSpace(s[0]) then Trim(s[1..])
    else if IsSpace(s[|s| - 1]) then Trim(s[..|s| - 1])
    else s
  }

  predicate Trimmed(s: string) {
    Trim(s) == s
  }

  /** The required fields besides the id. */
  predicate Ready(item: Item) {
    match item
    case Provider(_, name) => Trim(name) != ""
    case Catalog(_, name, providerId) => Trim(name) != "" && providerId != ""
    case Resource(_, name, _) => Trim(name) != ""
    case Offer(_, _) => true
  }

  /** The state of one step of the wizard. */
  datatype Step = Step(list: seq<Item>, editIdx: Option<nat>, draft: Item)

  datatype Click =
    | StartAdd(blank: Item)
    | StartEdit(i: nat)
    | ChangeDraft(draft: Item)
    | CancelDraft
    | Commit
    | Remove(i: nat)

  predicate Distinct(list: seq<Item>) {
    forall i, j :: 0 <= i < j < |list| ==> list[i].id != list[j].id
  }

  /** Another entry already has this id; the entry being edited does not count. */
  predicate Taken(list: seq<Item>, id: string, editIdx: Option<nat>) {
    exists i :: 0 <= i < |list| && list[i].id == id && Some(i) != editIdx
  }

  /** handleAdd: the trimmed id is checked, the draft is stored as typed. */
  function Committed(list: seq<Item>, editIdx: Option<nat>, draft: Item): seq<Item> {
    if Trim(draft.id) == "" || !Ready(draft) || Taken(list, Trim(draft.id), editIdx) then list
    else if editIdx.Some? then (if editIdx.value < |list| then list[editIdx.value := draft] else list)
    else list + [draft]
  }

  predicate Rejected(s: Step) {
    Trim(s.draft.id) == "" || !Ready(s.draft) || Taken(s.list, Trim(s.draft.id), s.editIdx)
  }

  /** One click. Removing an entry leaves an open edit as it is. */
  function After(s: Step, click: Click): Step {
    match click
    case StartAdd(blank) => s.(draft := blank)
    case StartEdit(i) => if i < |s.list| then s.(editIdx := Some(i), draft := s.list[i]) else s
    case ChangeDraft(draft) => s.(draft := draft)
    case CancelDraft => s.(editIdx := None)
    case Commit => if Rejected(s) then s else s.(list := Committed(s.list, s.editIdx, s.draft), editIdx := None)
    case Remove(i) => if i < |s.list| then s.(list := s.list[..i] + s.list[i + 1..]) else s
  }

  function Clicked(s: Step, clicks: seq<Click>): Step
    decreases |clicks|
  {
    if clicks == [] then s else Clicked(After(s, clicks[0]), clicks[1..])
  }

  predicate TrimmedInput(click: Click) {
    (click.ChangeDraft? ==> Trimmed(click.draft.id)) && (click.StartAdd? ==> Trimmed(click.blank.id))
  }

  ghost predicate Sound(s: Step) {
    Distinct(s.list) && Trimmed(s.draft.id) && forall i :: 0 <= i < |s.list| ==> Trimmed(s.list[i].id)
  }

  lemma AfterKeepsSound(s: Step, click: Click)
    requires Sound(s) && TrimmedInput(click)
    ensures Sound(After(s, click))
  {
    match click
    case Commit =>
      var id := s.draft.id;
      if !Rejected(s) {
        assert forall i :: 0 <= i < |s.list| && Some(i) != s.editIdx ==> s.list[i].id != id;
      }
    case Remove(i) =>
      if i < |s.list| {
        var rest := s.list[..i] + s.list[i + 1..];
        assert forall j :: 0 <= j < |rest| ==> rest[j] == s.list[if j < i then j else j + 1];
      }
    case _ =>
  }

  /** As long as every id is typed without surrounding space, any clicks keep the ids of a step distinct,
      removals during an open edit included. */
  lemma {:induction false} IdsStayDistinct(s: Step, clicks: seq<Click>)
    requires Sound(s)
    requires forall i :: 0 <= i < |clicks| ==> TrimmedInput(clicks[i])
    ensures Sound(Clicked(s, clicks))
    decreases |clicks|
  {
    if clicks != [] {
      AfterKeepsSound(s, clicks[0]);
      IdsStayDistinct(After(s, clicks[0]), clicks[1..]);
    }
  }

  /** The drafts that can be committed to any list without ever making two ids equal are exactly those that
      are refused anyway or whose id has no surrounding space. */
  lemma CommitSafeIffTrimmed(draft: Item)
    ensures (forall list, editIdx :: Distinct(list) ==> Distinct(Committed(list, editIdx, draft))) <==>
      Trimmed(draft.id) || Trim(draft.id) == "" || !Ready(draft)
  {
    if Trimmed(draft.id) {
      forall list: seq<Item>, editIdx: Option<nat> | Distinct(list) ensures Distinct(Committed(list, editIdx, draft)) {
        if !Taken(list, draft.id, editIdx) {
          assert forall i: nat :: i < |list| && Some(i) != editIdx ==> list[i].id != draft.id;
        }
      }
    } else if Trim(draft.id) != "" && Ready(draft) {
      var list := [draft];
      assert Distinct(list) && !Taken(list, Trim(draft.id), None);
      assert Committed(list, None, draft) == [draft, draft];
      assert [draft, draft][0].id == [draft, draft][1].id;
    }
  }

  /** Trimming removes white space at both ends and nothing else. */
  lemma {:induction false} TrimMeans(s: string) returns (left: string, right: string)
    ensures s == left + Trim(s) + right
    ensures forall i :: 0 <= i < |left| ==> IsSpace(left[i])
    ensures forall i :: 0 <= i < |right| ==> IsSpace(right[i])
    ensures Trim(s) != "" ==> !IsSpace(Trim(s)[0]) && !IsSpace(Trim(s)[|Trim(s)| - 1])
  {
    left, right := "", "";
    if s == "" {
    } else if IsSpace(s[0]) {
      left, right := TrimMeans(s[1..]);
      left := [s[0]] + left;
      assert s == [s[0]] + s[1..];
    } else if IsSpace(s[|s| - 1]) {
      left, right := TrimMeans(s[..|s| - 1]);
      right := right + [s[|s| - 1]];
      assert s == s[..|s| - 1] + [s[|s| - 1]];
    }
  }

  /** A commit is refused exactly for a blank id or name, a catalog without provider, or an id that another entry
      has; otherwise the draft is stored as typed, in place of the edited entry or at the end. */
  lemma CommitExactly(s: Step)
    ensures var id, done := Trim(s.draft.id), After(s, Commit);
      var refused := id == "" || (!s.draft.Offer? && Trim(s.draft.name) == "") ||
        (s.draft.Catalog? && s.draft.providerId == "") ||
        (exists i :: 0 <= i < |s.list| && s.list[i].id == id && s.editIdx != Some(i));
      if refused then done == s
      else
        && done.editIdx == None
        && (s.editIdx == None ==> done.list == s.list + [s.draft])
        && (s.editIdx.Some? && s.editIdx.value < |s.list| ==> done.list == s.list[s.editIdx.value := s.draft])
        && (s.editIdx.Some? && s.editIdx.value >= |s.list| ==> done.list == s.list)
  {
  }

  /** A run that gives two entries the same id: the same padded id is typed and committed twice. */
  lemma PaddedIdTwice()
    ensures var draft := Provider(" a", "n");
      var done := Clicked(Step([], None, draft), [StartAdd(draft), Commit, StartAdd(draft), Commit]);
      done.list == [draft, draft] && !Distinct(done.list)
  {
    var draft := Provider(" a", "n");
    var s0 := Step([], None, draft);
    assert Trim(" a") == Trim("a") == "a" && Trim("n") == "n" by {
      assert " a"[1..] == "a";
    }
    var s1 := After(s0, StartAdd(draft));
    var s2 := After(s1, Commit);
    assert s2.list == [draft] && s2.editIdx == None;
    var s3 := After(s2, StartAdd(draft));
    assert !Taken(s3.list, "a", None);
    var s4 := After(s3, Commit);
    ClickOne(s0, StartAdd(draft), [Commit, StartAdd(draft), Commit]);
    ClickOne(s1, Commit, [StartAdd(draft), Commit]);
    ClickOne(s2, StartAdd(draft), [Commit]);
    ClickOne(s3, Commit, []);
    assert s4.list[0].id == s4.list[1].id;
  }

  lemma ClickOne(s: Step, click: Click, rest: seq<Click>)
    ensures Clicked(s, [click] + rest) == Clicked(After(s, click), rest)
  {
    assert ([click] + rest)[1..] == rest;
  }

  /** An edit that is open while an entry is removed still reaches its own entry if and only if the removed entry
      comes later: only then is the entry at the edited position the one that was opened. */
  lemma EditHitsItsEntry(s: Step, i: nat, j: nat)
    requires Distinct(s.list) && i < |s.list| && j < |s.list|
    ensures var moved := After(After(s, StartEdit(i)), Remove(j));
      moved.editIdx == Some(i) && (i < |moved.list| && moved.list[i] == s.list[i] <==> j > i)
  {
    var moved := After(After(s, StartEdit(i)), Remove(j));
    assert i < |moved.list| ==> moved.list[i] == s.list[if i < j then i else i + 1];
  }

  /** Removing an earlier entry while entry i is being edited: the commit then overwrites the entry that followed
      it, or is dropped when there is none; the entry that was being edited keeps its old contents. */
  lemma StaleEdit(s: Step, i: nat, j: nat, draft: Item)
    requires j < i < |s.list|
    ensures var open := After(s, StartEdit(i));
      var moved := After(After(open, Remove(j)), ChangeDraft(draft));
      var done := After(moved, Commit);
      && done.list[i - 1] == s.list[i]
      && (!Rejected(moved) && i + 1 < |s.list| ==> done.list == moved.list[i := draft] && moved.list[i] == s.list[i + 1])
      && (!Rejected(moved) && i + 1 == |s.list| ==> done.list == moved.list)
  {
  }

  // ---- Publishing ----

  /** An answer of the server: a failure, or a row id, under one of two names. */
  datatype Reply = Fails | Row(id: Option<nat>, otherId: Option<nat>)

  /** The answer to call n; calls after the last answer fail. */
  function Answer(server: seq<Reply>, n: nat): Reply {
    if n < |server| then server[n] else Fails
  }

  datatype OfferPost = OfferPost(offer: Item, resourceDbId: nat)

  /** A resource as created, with the provider embedded in it. */
  datatype ResourcePost = ResourcePost(resource: Item, provider: Option<Item>)

  datatype CatalogPost = CatalogPost(catalog: Item, provider: Option<Item>, providerDbId: Option<nat>)

  function IdOf(reply: Reply): Option<nat> {
    if reply.Row? then reply.id else None
  }

  predicate Truthy(id: Option<nat>) {
    id.Some? && id.value != 0
  }

  /** The first name that holds a truthy id, else the second. */
  function IdOrOther(reply: Reply): Option<nat> {
    if reply.Row? then (if Truthy(reply.id) then reply.id else reply.otherId) else None
  }

  /** The position of the entry with this id; the length when there is none. */
  function IndexOf(list: seq<Item>, id: string): nat {
    if list == [] || list[0].id == id then 0 else 1 + IndexOf(list[1..], id)
  }

  lemma {:induction false} IndexOfFinds(list: seq<Item>, id: string)
    ensures var k := IndexOf(list, id);
      k <= |list| && (k < |list| ==> list[k].id == id) && forall i :: 0 <= i < k ==> list[i].id != id
  {
    if list != [] && list[0].id != id {
      IndexOfFinds(list[1..], id);
      assert forall i :: 0 < i < |list| ==> list[i] == list[1..][i - 1];
    }
  }

  /** The position of the last entry with this id: later posts overwrite earlier ones in an id map. */
  function LastIndex(list: seq<Item>, id: string): Option<nat> {
    if list == [] then None
    else if list[|list| - 1].id == id then Some(|list| - 1)
    else LastIndex(list[..|list| - 1], id)
  }

  lemma {:induction false} LastIndexFinds(list: seq<Item>, id: string)
    ensures var k := LastIndex(list, id);
      && (k.Some? ==> k.value < |list| && list[k.value].id == id)
      && (k.None? ==> forall i :: 0 <= i < |list| ==> list[i].id != id)
  {
    if list != [] {
      LastIndexFinds(list[..|list| - 1], id);
    }
  }

  lemma LastIndexNext(list: seq<Item>, i: nat, id: string)
    requires i < |list|
    ensures LastIndex(list[..i + 1], id) == (if list[i].id == id then Some(i) else LastIndex(list[..i], id))
  {
    var longer := list[..i + 1];
    assert longer[|longer| - 1] == list[i] && longer[..|longer| - 1] == list[..i];
  }

  /** What the server answered for the provider, or the resource, with this wizard id. The providers are
      posted first, call k for provider k; the resources follow from call `base`. */
  function ProviderDbId(providers: seq<Item>, server: seq<Reply>, id: string): Option<nat> {
    match LastIndex(providers, id)
    case Some(k) => IdOf(Answer(server, k))
    case None => None
  }

  function ResourceDbId(resources: seq<Item>, server: seq<Reply>, base: nat, id: string): Option<nat> {
    match LastIndex(resources, id)
    case Some(k) => IdOrOther(Answer(server, base + k))
    case None => None
  }

  /** The database id of an offer's first linked resource, if it has one. */
  function FirstDbId(providers: seq<Item>, resources: seq<Item>, server: seq<Reply>, offer: Item): Option<nat> {
    if offer.Offer? && offer.resourceIds != [] && offer.resourceIds[0] != ""
    then ResourceDbId(resources, server, |providers|, offer.resourceIds[0])
    else None
  }

  /** The offers that are created, in order: those whose first linked resource has a database id. */
  function OfferPosts(providers: seq<Item>, resources: seq<Item>, server: seq<Reply>, offers: seq<Item>): seq<OfferPost> {
    if offers == [] then []
    else
      var before, offer := OfferPosts(providers, resources, server, offers[..|offers| - 1]), offers[|offers| - 1];
      var dbId := FirstDbId(providers, resources, server, offer);
      if Truthy(dbId) then before + [OfferPost(offer, dbId.value)] else before
  }

  /** A resource embeds the provider it names, else the first one of the list. */
  function ResourcePostFor(providers: seq<Item>, resource: Item): ResourcePost
    requires resource.Resource?
  {
    var k := IndexOf(providers, resource.providerId);
    ResourcePost(resource, if k < |providers| then Some(providers[k]) else if providers != [] then Some(providers[0]) else None)
  }

  function ResourcePosts(providers: seq<Item>, resources: seq<Item>): seq<ResourcePost>
    requires forall i :: 0 <= i < |resources| ==> resources[i].Resource?
  {
    seq(|resources|, i requires 0 <= i < |resources| => ResourcePostFor(providers, resources[i]))
  }

  function CatalogPostFor(providers: seq<Item>, server: seq<Reply>, catalog: Item): CatalogPost
    requires catalog.Catalog?
  {
    CatalogPostOf(providers, catalog, ProviderDbId(providers, server, catalog.providerId))
  }

  function CatalogPostOf(providers: seq<Item>, catalog: Item, dbId: Option<nat>): CatalogPost
    requires catalog.Catalog?
  {
    var k := IndexOf(providers, catalog.providerId);
    CatalogPost(catalog, if k < |providers| then Some(providers[k]) else None, if Truthy(dbId) then dbId else None)
  }

  function CatalogPosts(providers: seq<Item>, server: seq<Reply>, catalogs: seq<Item>): seq<CatalogPost>
    requires forall i :: 0 <= i < |catalogs| ==> catalogs[i].Catalog?
  {
    if catalogs == [] then []
    else
      CatalogPosts(providers, server, catalogs[..|catalogs| - 1]) +
      [CatalogPostFor(providers, server, catalogs[|catalogs| - 1])]
  }

  lemma DistinctIndex(list: seq<Item>, i: nat)
    requires Distinct(list) && i < |list|
    ensures IndexOf(list, list[i].id) == i
    ensures LastIndex(list, list[i].id) == Some(i)
  {
    IndexOfFinds(list, list[i].id);
    LastIndexFinds(list, list[i].id);
  }

  /** Of `all` calls in order exactly the first n are made and answered: the next one, if there is one, fails. */
  ghost predicate Answered(server: seq<Reply>, n: nat, all: nat) {
    && n <= all && (n < all ==> Answer(server, n).Fails?)
    && forall k: nat :: k < n ==> Answer(server, k).Row?
  }

  /** That fixes n. */
  lemma AnsweredOnce(server: seq<Reply>, m: nat, n: nat, all: nat)
    requires Answered(server, m, all) && Answered(server, n, all)
    ensures m == n
  {
  }

  /** The ids that n catalogs were given at their creation; catalog i is created by call base + 2i. */
  function GivenIds(server: seq<Reply>, base: nat, n: nat): (ids: seq<Option<nat>>)
    ensures |ids| == n
  {
    if n == 0 then [] else GivenIds(server, base, n - 1) + [IdOrOther(Answer(server, base + 2 * (n - 1)))]
  }

  /** A catalog is given the first of its two answered names that holds an id, else the second. */
  lemma {:induction false} GivenIdsMean(server: seq<Reply>, base: nat, n: nat, i: nat)
    requires i < n && Answer(server, base + 2 * i).Row?
    ensures var reply, id := Answer(server, base + 2 * i), GivenIds(server, base, n)[i];
      && (reply.id.Some? && reply.id.value != 0 ==> id == reply.id)
      && (reply.id.None? || reply.id.value == 0 ==> id == reply.otherId)
  {
    if i < n - 1 {
      GivenIdsMean(server, base, n - 1, i);
    }
  }

  /** Lookup in a JavaScript object used as a map: a missing key reads as undefined. */
  function Lookup(dbIds: map<string, Option<nat>>, id: string): Option<nat> {
    if id in dbIds then dbIds[id] else None
  }

  /** Save the providers; the map takes wizard ids to row ids. */
  method SaveProviders(providers: seq<Item>, server: seq<Reply>)
    returns (dbIds: map<string, Option<nat>>, saved: nat, ok: bool)
    ensures ok ==> forall id :: Lookup(dbIds, id) == ProviderDbId(providers, server, id)
    ensures Answered(server, saved, |providers|) && (ok <==> saved == |providers|)
  {
    dbIds, saved, ok := map[], 0, false;
    for i := 0 to |providers|
      invariant saved == i && Answered(server, i, i)
      invariant forall id :: Lookup(dbIds, id) == ProviderDbId(providers[..i], server, id)
    {
      if Answer(server, i).Fails? {
        return;
      }
      saved := saved + 1;
      ghost var before := dbIds;
      dbIds := dbIds[providers[i].id := IdOf(Answer(server, i))];
      forall id ensures Lookup(dbIds, id) == ProviderDbId(providers[..i + 1], server, id) {
        LastIndexNext(providers, i, id);
        assert Lookup(before, id) == ProviderDbId(providers[..i], server, id);
      }
    }
    assert providers[..|providers|] == providers;
    ok := true;
  }

  /** Create the resources, each with its provider embedded; the map takes wizard ids to row ids. */
  method SaveResources(providers: seq<Item>, resources: seq<Item>, server: seq<Reply>, base: nat)
    returns (posts: seq<ResourcePost>, dbIds: map<string, Option<nat>>, ok: bool)
    requires forall i :: 0 <= i < |resources| ==> resources[i].Resource?
    requires Answered(server, base, base)
    ensures posts <= ResourcePosts(providers, resources)
    ensures ok ==> forall id :: Lookup(dbIds, id) == ResourceDbId(resources, server, base, id)
    ensures Answered(server, base + |posts|, base + |resources|) && (ok <==> |posts| == |resources|)
  {
    posts, dbIds, ok := [], map[], false;
    for i := 0 to |resources|
      invariant |posts| == i && Answered(server, base + i, base + i)
      invariant posts == ResourcePosts(providers, resources)[..i]
      invariant forall id :: Lookup(dbIds, id) == ResourceDbId(resources[..i], server, base, id)
    {
      var k := IndexOf(providers, resources[i].providerId);
      var linkedProvider := if k < |providers| then Some(providers[k]) else if providers != [] then Some(providers[0]) else None;
      if Answer(server, base + i).Fails? {
        return;
      }
      posts := posts + [ResourcePost(resources[i], linkedProvider)];
      ghost var before := dbIds;
      dbIds := dbIds[resources[i].id := IdOrOther(Answer(server, base + i))];
      forall id ensures Lookup(dbIds, id) == ResourceDbId(resources[..i + 1], server, base, id) {
        LastIndexNext(resources, i, id);
        assert Lookup(before, id) == ResourceDbId(resources[..i], server, base, id);
      }
    }
    assert resources[..|resources|] == resources;
    ok := true;
  }

  /** Create the offers whose first linked resource has a row id. */
  method SaveOffers(providers: seq<Item>, resources: seq<Item>, offers: seq<Item>, server: seq<Reply>,
                    resourceIdMap: map<string, Option<nat>>)
    returns (posts: seq<OfferPost>, calls: nat, ok: bool)
    requires forall id :: Lookup(resourceIdMap, id) == ResourceDbId(resources, server, |providers|, id)
    requires forall i :: 0 <= i < |offers| ==> offers[i].Offer?
    requires Answered(server, |providers| + |resources|, |providers| + |resources|)
    ensures posts <= OfferPosts(providers, resources, server, offers)
    ensures calls == |providers| + |resources| + |posts|
    ensures Answered(server, calls, |providers| + |resources| + |OfferPosts(providers, resources, server, offers)|)
    ensures ok <==> |posts| == |OfferPosts(providers, resources, server, offers)|
  {
    posts, calls, ok := [], |providers| + |resources|, false;
    for i := 0 to |offers|
      invariant calls == |providers| + |resources| + |posts| && Answered(server, calls, calls)
      invariant posts == OfferPosts(providers, resources, server, offers[..i])
    {
      assert offers[..i + 1][..i] == offers[..i];
      var ids := offers[i].resourceIds;
      var dbResourceId := if ids != [] && ids[0] != "" then Lookup(resourceIdMap, ids[0]) else None;
      assert dbResourceId == FirstDbId(providers, resources, server, offers[i]);
      if Truthy(dbResourceId) {
        if Answer(server, calls).Fails? {
          OfferPostsPrefix(providers, resources, server, offers, i);
          OfferPostsPrefix(providers, resources, server, offers, i + 1);
          return;
        }
        calls := calls + 1;
        posts := posts + [OfferPost(offers[i], dbResourceId.value)];
      }
    }
    assert offers[..|offers|] == offers;
    ok := true;
  }

  /** Create the catalogs, and publish each under the id it was given. */
  method SaveCatalogs(providers: seq<Item>, catalogs: seq<Item>, server: seq<Reply>, base: nat,
                      providerDbIdMap: map<string, Option<nat>>)
    returns (posts: seq<CatalogPost>, published: seq<Option<nat>>, ok: bool)
    requires forall id :: Lookup(providerDbIdMap, id) == ProviderDbId(providers, server, id)
    requires forall i :: 0 <= i < |catalogs| ==> catalogs[i].Catalog?
    requires Answered(server, base, base)
    ensures posts <= CatalogPosts(providers, server, catalogs)
    ensures published == GivenIds(server, base, |published|)
    ensures Answered(server, base + |posts| + |published|, base + 2 * |catalogs|)
    ensures |published| <= |posts| <= |published| + 1 && (ok <==> |published| == |catalogs|)
  {
    posts, published, ok := [], [], false;
    var calls := base;
    for i := 0 to |catalogs|
      invariant calls == base + 2 * i && |published| == i && |posts| == i && Answered(server, calls, calls)
      invariant published == GivenIds(server, base, i)
      invariant posts == CatalogPosts(providers, server, catalogs[..i])
    {
      CatalogPostsNext(providers, server, catalogs, i);
      if Answer(server, calls).Fails? {
        return;
      }
      var catalogId := IdOrOther(Answer(server, calls));
      posts := posts + [CatalogPostOf(providers, catalogs[i], Lookup(providerDbIdMap, catalogs[i].providerId))];
      if Answer(server, calls + 1).Fails? {
        return;
      }
      published := published + [catalogId];
      calls := calls + 2;
    }
    assert catalogs[..|catalogs|] == catalogs;
    ok := true;
  }

  /** handlePublish. `server` answers the calls in order: one saves a provider, a resource or an offer, and two create
      and publish a catalog. The first call that fails ends the run. */
  method HandlePublish(providers: seq<Item>, catalogs: seq<Item>, resources: seq<Item>, offers: seq<Item>,
                       server: seq<Reply>)
    returns (saved: nat, resourcePosts: seq<ResourcePost>, offerPosts: seq<OfferPost>, catalogPosts: seq<CatalogPost>,
             published: seq<Option<nat>>, success: bool)
    requires forall i :: 0 <= i < |catalogs| ==> catalogs[i].Catalog?
    requires forall i :: 0 <= i < |resources| ==> resources[i].Resource?
    requires forall i :: 0 <= i < |offers| ==> offers[i].Offer?
    ensures resourcePosts <= ResourcePosts(providers, resources)
    ensures offerPosts <= OfferPosts(providers, resources, server, offers)
    ensures catalogPosts <= CatalogPosts(providers, server, catalogs)
    ensures published == GivenIds(server, |providers| + |resources| + |offerPosts|, |published|)
    ensures |resourcePosts| > 0 ==> saved == |providers|
    ensures |offerPosts| > 0 ==> saved == |providers| && |resourcePosts| == |resources|
    ensures |catalogPosts| > 0 ==>
      && saved == |providers| && |resourcePosts| == |resources|
      && |offerPosts| == |OfferPosts(providers, resources, server, offers)|
    ensures |published| <= |catalogPosts| <= |published| + 1
    ensures var made := saved + |resourcePosts| + |offerPosts| + |catalogPosts| + |published|;
      var all := |providers| + |resources| + |OfferPosts(providers, resources, server, offers)| + 2 * |catalogs|;
      Answered(server, made, all) && (success <==> made == all)
  {
    resourcePosts, offerPosts, catalogPosts, published := [], [], [], [];
    var providerDbIdMap, resourceIdMap, calls;
    providerDbIdMap, saved, success := SaveProviders(providers, server);
    if !success {
      return;
    }
    resourcePosts, resourceIdMap, success := SaveResources(providers, resources, server, |providers|);
    if !success {
      return;
    }
    offerPosts, calls, success := SaveOffers(providers, resources, offers, server, resourceIdMap);
    if !success {
      return;
    }
    catalogPosts, published, success := SaveCatalogs(providers, catalogs, server, calls, providerDbIdMap);
  }

  lemma {:induction false} OfferPostsPrefix(providers: seq<Item>, resources: seq<Item>, server: seq<Reply>,
                                            offers: seq<Item>, n: nat)
    requires n <= |offers|
    ensures OfferPosts(providers, resources, server, offers[..n]) <= OfferPosts(providers, resources, server, offers)
  {
    if n < |offers| {
      OfferPostsPrefix(providers, resources, server, offers[..|offers| - 1], n);
      assert offers[..|offers| - 1][..n] == offers[..n];
    } else {
      assert offers[..n] == offers;
    }
  }

  lemma CatalogPostsNext(providers: seq<Item>, server: seq<Reply>, catalogs: seq<Item>, i: nat)
    requires forall i :: 0 <= i < |catalogs| ==> catalogs[i].Catalog?
    requires i < |catalogs|
    ensures CatalogPosts(providers, server, catalogs[..i + 1]) ==
      CatalogPosts(providers, server, catalogs[..i]) + [CatalogPostFor(providers, server, catalogs[i])]
    ensures CatalogPosts(providers, server, catalogs[..i]) <= CatalogPosts(providers, server, catalogs)
    ensures CatalogPosts(providers, server, catalogs[..i + 1]) <= CatalogPosts(providers, server, catalogs)
  {
    assert catalogs[..i + 1][..i] == catalogs[..i];
    CatalogPostsPrefix(providers, server, catalogs, i);
    CatalogPostsPrefix(providers, server, catalogs, i + 1);
  }

  lemma {:induction false} CatalogPostsPrefix(providers: seq<Item>, server: seq<Reply>, catalogs: seq<Item>, n: nat)
    requires forall i :: 0 <= i < |catalogs| ==> catalogs[i].Catalog?
    requires n <= |catalogs|
    ensures CatalogPosts(providers, server, catalogs[..n]) <= CatalogPosts(providers, server, catalogs)
  {
    if n < |catalogs| {
      CatalogPostsPrefix(providers, server, catalogs[..|catalogs| - 1], n);
      assert catalogs[..|catalogs| - 1][..n] == catalogs[..n];
    } else {
      assert catalogs[..n] == catalogs;
    }
  }

  /** The post carries the database id that the server gave to the one resource the offer names first. */
  ghost predicate Linked(post: OfferPost, providers: seq<Item>, resources: seq<Item>, server: seq<Reply>) {
    && post.offer.Offer? && post.offer.resourceIds != []
    && (exists k :: 0 <= k < |resources| && resources[k].id == post.offer.resourceIds[0])
    && (forall k :: 0 <= k < |resources| && resources[k].id == post.offer.resourceIds[0] ==>
         var reply := Answer(server, |providers| + k);
         && reply.Row?
         && (reply.id.Some? && reply.id.value != 0 ==> post.resourceDbId == reply.id.value)
         && (reply.id.None? || reply.id.value == 0 ==> reply.otherId == Some(post.resourceDbId)))
    && post.resourceDbId != 0
  }

  lemma {:induction false} OfferGetsFirstResource(providers: seq<Item>, resources: seq<Item>, server: seq<Reply>,
                                                  offers: seq<Item>, n: nat)
    requires Distinct(resources)
    requires n < |OfferPosts(providers, resources, server, offers)|
    ensures var post := OfferPosts(providers, resources, server, offers)[n];
      post.offer in offers && Linked(post, providers, resources, server)
  {
    var init := offers[..|offers| - 1];
    if n < |OfferPosts(providers, resources, server, init)| {
      OfferGetsFirstResource(providers, resources, server, init, n);
    } else {
      var offer := offers[|offers| - 1];
      var k := LastIndex(resources, offer.resourceIds[0]);
      LastIndexFinds(resources, offer.resourceIds[0]);
      forall j | 0 <= j < |resources| && resources[j].id == offer.resourceIds[0] ensures k == Some(j) {
        DistinctIndex(resources, j);
      }
    }
  }

  /** A created resource carries the provider it names if and only if that provider still exists; otherwise it
      silently carries the first provider of the list, or none when there is no provider at all. */
  lemma ResourceKeepsOwnProvider(providers: seq<Item>, resources: seq<Item>, n: nat)
    requires Distinct(providers)
    requires forall i :: 0 <= i < |resources| ==> resources[i].Resource?
    requires n < |resources|
    ensures var post, id := ResourcePosts(providers, resources)[n], resources[n].providerId;
      var remains := exists k :: 0 <= k < |providers| && providers[k].id == id;
      && post.resource == resources[n]
      && (post.provider.Some? && post.provider.value.id == id <==> remains)
      && (forall k :: 0 <= k < |providers| && providers[k].id == id ==> post.provider == Some(providers[k]))
      && (!remains ==> post.provider == if providers == [] then None else Some(providers[0]))
  {
    var id := resources[n].providerId;
    IndexOfFinds(providers, id);
    forall k | 0 <= k < |providers| && providers[k].id == id ensures IndexOf(providers, id) == k {
      DistinctIndex(providers, k);
    }
  }

  /** A resource whose provider was removed is created with another one. */
  lemma RemovedProviderReplaced()
    ensures var p := Provider("p", "other");
      ResourcePosts([p], [Resource("r", "n", "removed")])[0].provider == Some(p)
  {
    ResourceKeepsOwnProvider([Provider("p", "other")], [Resource("r", "n", "removed")], 0);
  }

  /** An offer is created if and only if it links a resource first and that resource got a database id. */
  predicate IsCreated(providers: seq<Item>, resources: seq<Item>, server: seq<Reply>, offer: Item) {
    offer.Offer? && offer.resourceIds != [] && offer.resourceIds[0] != "" &&
    exists k :: 0 <= k < |resources| && resources[k].id == offer.resourceIds[0] && GotId(server, |providers| + k)
  }

  /** The answer to a call carries an id under one of its names. */
  predicate GotId(server: seq<Reply>, call: nat) {
    var reply := Answer(server, call);
    reply.Row? && ((reply.id.Some? && reply.id.value != 0) || (reply.otherId.Some? && reply.otherId.value != 0))
  }

  /** The offers among a list that are created, in order. */
  function Created(providers: seq<Item>, resources: seq<Item>, server: seq<Reply>, offers: seq<Item>): seq<Item> {
    if offers == [] then []
    else if IsCreated(providers, resources, server, offers[0])
    then [offers[0]] + Created(providers, resources, server, offers[1..])
    else Created(providers, resources, server, offers[1..])
  }

  function OffersOf(posts: seq<OfferPost>): seq<Item> {
    if posts == [] then [] else OffersOf(posts[..|posts| - 1]) + [posts[|posts| - 1].offer]
  }

  lemma {:induction false} CreatedAppend(providers: seq<Item>, resources: seq<Item>, server: seq<Reply>,
                                         offers: seq<Item>, last: Item)
    ensures Created(providers, resources, server, offers + [last]) ==
      Created(providers, resources, server, offers) + (if IsCreated(providers, resources, server, last) then [last] else [])
  {
    if offers == [] {
      assert (offers + [last])[1..] == [];
    } else {
      assert (offers + [last])[1..] == offers[1..] + [last];
      CreatedAppend(providers, resources, server, offers[1..], last);
    }
  }

  lemma CreatedIffId(providers: seq<Item>, resources: seq<Item>, server: seq<Reply>, offer: Item)
    requires Distinct(resources)
    ensures IsCreated(providers, resources, server, offer) <==> Truthy(FirstDbId(providers, resources, server, offer))
  {
    if offer.Offer? && offer.resourceIds != [] {
      LastIndexFinds(resources, offer.resourceIds[0]);
      forall k | 0 <= k < |resources| && resources[k].id == offer.resourceIds[0]
        ensures LastIndex(resources, offer.resourceIds[0]) == Some(k)
        ensures GotId(server, |providers| + k) <==> Truthy(IdOrOther(Answer(server, |providers| + k)))
      {
        DistinctIndex(resources, k);
      }
    }
  }

  /** With distinct resource ids the created offers are exactly those that link a resource with an id, in order. */
  lemma {:induction false} OffersCreatedExactly(providers: seq<Item>, resources: seq<Item>, server: seq<Reply>, offers: seq<Item>)
    requires Distinct(resources)
    ensures OffersOf(OfferPosts(providers, resources, server, offers)) == Created(providers, resources, server, offers)
  {
    if offers != [] {
      var init, last := offers[..|offers| - 1], offers[|offers| - 1];
      OffersCreatedExactly(providers, resources, server, init);
      CreatedAppend(providers, resources, server, init, last);
      CreatedIffId(providers, resources, server, last);
      assert offers == init + [last];
      var posts := OfferPosts(providers, resources, server, offers);
      assert IsCreated(providers, resources, server, last) ==>
        posts[..|posts| - 1] == OfferPosts(providers, resources, server, init);
    }
  }

  /** The post carries the one provider the catalog names and the database id the server gave to it, or null when
      that provider was removed or got no id. */
  ghost predicate OwnProvider(post: CatalogPost, providerId: string, providers: seq<Item>, server: seq<Reply>) {
    && (forall k :: 0 <= k < |providers| && providers[k].id == providerId ==>
         var reply := Answer(server, k);
         && post.provider == Some(providers[k])
         && (reply.Row? && reply.id.Some? && reply.id.value != 0 ==> post.providerDbId == reply.id)
         && (reply.Fails? || reply.id.None? || reply.id.value == 0 ==> post.providerDbId == None))
    && ((forall k :: 0 <= k < |providers| ==> providers[k].id != providerId) ==>
         post.provider == None && post.providerDbId == None)
  }

  /** Every catalog is posted, in order, with its own provider. */
  lemma {:induction false} CatalogGetsOwnProvider(providers: seq<Item>, server: seq<Reply>, catalogs: seq<Item>, n: nat)
    requires Distinct(providers)
    requires forall i :: 0 <= i < |catalogs| ==> catalogs[i].Catalog?
    requires n < |catalogs|
    ensures |CatalogPosts(providers, server, catalogs)| == |catalogs|
    ensures var post := CatalogPosts(providers, server, catalogs)[n];
      post.catalog == catalogs[n] && OwnProvider(post, catalogs[n].providerId, providers, server)
  {
    var init := catalogs[..|catalogs| - 1];
    CatalogPostsLength(providers, server, init);
    if n < |init| {
      CatalogGetsOwnProvider(providers, server, init, n);
    } else {
      IndexOfFinds(providers, catalogs[n].providerId);
      LastIndexFinds(providers, catalogs[n].providerId);
      forall k | 0 <= k < |providers| && providers[k].id == catalogs[n].providerId
        ensures IndexOf(providers, catalogs[n].providerId) == k
        ensures LastIndex(providers, catalogs[n].providerId) == Some(k)
      {
        DistinctIndex(providers, k);
      }
    }
  }

  lemma {:induction false} CatalogPostsLength(providers: seq<Item>, server: seq<Reply>, catalogs: seq<Item>)
    requires forall i :: 0 <= i < |catalogs| ==> catalogs[i].Catalog?
    ensures |CatalogPosts(providers, server, catalogs)| == |catalogs|
  {
    if catalogs != [] {
      CatalogPostsLength(providers, server, catalogs[..|catalogs| - 1]);
    }
  }

  /** A whole session: providers and resources entered by any clicks, then published. Whatever was added, edited
      or removed, every created offer is linked to its first resource and every catalog to its own provider. */
  lemma SessionIntegrity(start: Step, providerClicks: seq<Click>, resourceClicks: seq<Click>, server: seq<Reply>,
                         offers: seq<Item>, catalogs: seq<Item>)
    requires Sound(start) && start.list == []
    requires forall i :: 0 <= i < |providerClicks| ==> TrimmedInput(providerClicks[i])
    requires forall i :: 0 <= i < |resourceClicks| ==> TrimmedInput(resourceClicks[i])
    requires forall i :: 0 <= i < |catalogs| ==> catalogs[i].Catalog?
    ensures var providers, resources := Clicked(start, providerClicks).list, Clicked(start, resourceClicks).list;
      var offerPosts := OfferPosts(providers, resources, server, offers);
      var catalogPosts := CatalogPosts(providers, server, catalogs);
      && (forall n :: 0 <= n < |offerPosts| ==> Linked(offerPosts[n], providers, resources, server))
      && |catalogPosts| == |catalogs|
      && (forall n :: 0 <= n < |catalogs| ==> OwnProvider(catalogPosts[n], catalogs[n].providerId, providers, server))
  {
    var providers, resources := Clicked(start, providerClicks).list, Clicked(start, resourceClicks).list;
    IdsStayDistinct(start, providerClicks);
    IdsStayDistinct(start, resourceClicks);
    var offerPosts := OfferPosts(providers, resources, server, offers);
    CatalogPostsLength(providers, server, catalogs);
    forall n | 0 <= n < |offerPosts| ensures Linked(offerPosts[n], providers, resources, server) {
      OfferGetsFirstResource(providers, resources, server, offers, n);
    }
    var catalogPosts := CatalogPosts(providers, server, catalogs);
    forall n | 0 <= n < |catalogs| ensures OwnProvider(catalogPosts[n], catalogs[n].providerId, providers, server) {
      CatalogGetsOwnProvider(providers, server, catalogs, n);
    }
  }
}
