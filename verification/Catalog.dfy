/** The model catalog: what the credentials list and the channels define, merged by model id. */
module Catalog {
  import opened Wrappers
  import opened Strings

  datatype AuthFile = AuthFile(name: string, provider: string, disabled: bool)

  datatype Ref = Ref(id: string, owner: string, channel: string)

  /** What the management service answers; None is a failed request. */
  datatype Server = Server(models: string -> Option<seq<Ref>>, definitions: string -> Option<seq<Ref>>)

  datatype Entry = Entry(id: string, owner: string, providers: seq<string>, accounts: nat)

  datatype Problem = Credentials | CredentialModels | Definitions

  const UNKNOWN_PROVIDER := "unknown"

  function ProviderOf(f: AuthFile): string {
    if f.provider == "" then UNKNOWN_PROVIDER else f.provider
  }

  /** Named sets. */
  type Links = map<string, set<string>>

  // ---------------------------------------------------------------- what the catalog means

  ghost predicate Lists(server: Server, f: AuthFile, r: Ref) {
    !f.disabled && server.models(f.name).Some? && r in server.models(f.name).value && r.id != ""
  }

  /** An enabled credential puts its provider behind the channel of its own name and those of its models. */
  ghost predicate PutsBehind(server: Server, f: AuthFile, channel: string) {
    !f.disabled && channel != "" && (f.provider == channel || exists r :: Lists(server, f, r) && r.channel == channel)
  }

  ghost predicate Behind(server: Server, files: seq<AuthFile>, channel: string, provider: string) {
    exists f :: f in files && PutsBehind(server, f, channel) && ProviderOf(f) == provider
  }

  ghost predicate Served(server: Server, files: seq<AuthFile>, channel: string) {
    exists f :: f in files && PutsBehind(server, f, channel)
  }

  ghost predicate Defines(server: Server, channel: string, d: Ref) {
    server.definitions(channel).Some? && d in server.definitions(channel).value && d.id != ""
  }

  ghost predicate Provides(server: Server, files: seq<AuthFile>, id: string, provider: string) {
    || (exists f, r :: f in files && Lists(server, f, r) && r.id == id && ProviderOf(f) == provider)
    || (exists channel, d :: Behind(server, files, channel, provider) && Defines(server, channel, d) && d.id == id)
  }

  /** The credential offers the model itself, or through a channel of its provider. */
  ghost predicate Offers(server: Server, files: seq<AuthFile>, f: AuthFile, id: string) {
    || (exists r :: Lists(server, f, r) && r.id == id)
    || (!f.disabled && exists channel, d ::
          Behind(server, files, channel, ProviderOf(f)) && Defines(server, channel, d) && d.id == id)
  }

  ghost function Accounts(server: Server, files: seq<AuthFile>, id: string): set<string> {
    set f | f in files && Offers(server, files, f, id) :: f.name
  }

  ghost predicate OwnedBy(server: Server, files: seq<AuthFile>, id: string, owner: string) {
    && owner != ""
    && (|| (exists f, r :: f in files && Lists(server, f, r) && r.id == id && r.owner == owner)
        || (exists channel, d ::
              Served(server, files, channel) && Defines(server, channel, d) && d.id == id && d.owner == owner))
  }

  ghost predicate Ascending(items: seq<string>) {
    forall i, j :: 0 <= i < j < |items| ==> Less(items[i], items[j])
  }

  ghost predicate LeastOwner(server: Server, files: seq<AuthFile>, id: string, owner: string) {
    if owner == "" then forall o :: !OwnedBy(server, files, id, o)
    else OwnedBy(server, files, id, owner) && forall o :: OwnedBy(server, files, id, o) ==> o == owner || Less(owner, o)
  }

  ghost predicate Describes(server: Server, files: seq<AuthFile>, e: Entry) {
    && Ascending(e.providers) && (forall p :: p in e.providers <==> Provides(server, files, e.id, p))
    && e.accounts == |Accounts(server, files, e.id)|
    && LeastOwner(server, files, e.id, e.owner)
  }

  function Ids(entries: seq<Entry>): (ids: seq<string>)
    ensures |ids| == |entries|
    ensures forall i :: 0 <= i < |entries| ==> ids[i] == entries[i].id
  {
    seq(|entries|, i requires 0 <= i < |entries| => entries[i].id)
  }

  /** The catalog of these credentials: each provided model once, in order of its id. */
  ghost predicate IsCatalog(server: Server, files: seq<AuthFile>, entries: seq<Entry>) {
    && Ascending(Ids(entries))
    && (forall id :: id in Ids(entries) <==> exists p :: Provides(server, files, id, p))
    && (forall e :: e in entries ==> Describes(server, files, e))
  }

  ghost predicate CredentialFails(server: Server, files: seq<AuthFile>) {
    exists f :: f in files && !f.disabled && server.models(f.name).None?
  }

  ghost predicate DefinitionsFail(server: Server, files: seq<AuthFile>) {
    exists channel :: Served(server, files, channel) && server.definitions(channel).None?
  }

  /** Every request must succeed. */
  ghost predicate Outcome(server: Server, files: seq<AuthFile>, r: Result<seq<Entry>, Problem>) {
    if CredentialFails(server, files) then r == Failure(CredentialModels)
    else if DefinitionsFail(server, files) then r == Failure(Definitions)
    else r.Success? && IsCatalog(server, files, r.value)
  }

  // ---------------------------------------------------------------- one catalog for every order

  lemma HasFirst(b: seq<string>)
    ensures b == [] || b[0] in b
  {
  }

  /** An ascending sequence is determined by its elements. */
  lemma {:induction false} AscendingIsUnique(a: seq<string>, b: seq<string>)
    requires Ascending(a) && Ascending(b)
    requires forall x :: x in a <==> x in b
    ensures a == b
    decreases |a|
  {
    HasFirst(b);
    if a == [] {
    } else {
      assert a[0] in b && b[0] in b && b[0] in a;
      if a[0] != b[0] {
        LessTransitive(a[0], b[0], a[0]);
        NotLessItself(a[0]);
        assert false;
      }
      forall x ensures x in a[1..] <==> x in b[1..] {
        NotLessItself(a[0]);
        assert x in a[1..] ==> x in a && Less(a[0], x);
        assert x in b[1..] ==> x in b && Less(b[0], x);
        assert x in a <==> x == a[0] || x in a[1..];
        assert x in b <==> x == b[0] || x in b[1..];
      }
      AscendingIsUnique(a[1..], b[1..]);
    }
  }

  lemma EntryIsUnique(server: Server, a: seq<AuthFile>, b: seq<AuthFile>, x: Entry, y: Entry)
    requires forall f :: f in a <==> f in b
    requires Describes(server, a, x) && Describes(server, b, y) && x.id == y.id
    ensures x == y
  {
    forall channel, p ensures Behind(server, a, channel, p) <==> Behind(server, b, channel, p) {
    }
    forall channel ensures Served(server, a, channel) <==> Served(server, b, channel) {
    }
    assert forall p :: Provides(server, a, x.id, p) <==> Provides(server, b, x.id, p);
    AscendingIsUnique(x.providers, y.providers);
    assert forall f :: Offers(server, a, f, x.id) <==> Offers(server, b, f, x.id);
    assert Accounts(server, a, x.id) == Accounts(server, b, x.id);
    assert forall o :: OwnedBy(server, a, x.id, o) <==> OwnedBy(server, b, x.id, o);
    if x.owner != "" && y.owner != "" && x.owner != y.owner {
      LessTransitive(x.owner, y.owner, x.owner);
      NotLessItself(x.owner);
      assert false;
    }
  }

  /** The result depends on which credentials there are, not on their order or repetition. */
  lemma OrderIsIrrelevant(server: Server, a: seq<AuthFile>, b: seq<AuthFile>,
                          x: Result<seq<Entry>, Problem>, y: Result<seq<Entry>, Problem>)
    requires forall f :: f in a <==> f in b
    requires Outcome(server, a, x) && Outcome(server, b, y)
    ensures x == y
  {
    forall channel ensures Served(server, a, channel) <==> Served(server, b, channel) {
    }
    assert CredentialFails(server, a) <==> CredentialFails(server, b);
    assert DefinitionsFail(server, a) <==> DefinitionsFail(server, b);
    if x.Success? && y.Success? {
      forall channel, p ensures Behind(server, a, channel, p) <==> Behind(server, b, channel, p) {
      }
      assert forall id, p :: Provides(server, a, id, p) <==> Provides(server, b, id, p);
      AscendingIsUnique(Ids(x.value), Ids(y.value));
      forall i | 0 <= i < |x.value| ensures x.value[i] == y.value[i] {
        assert Ids(x.value)[i] == Ids(y.value)[i];
        assert x.value[i] in x.value && y.value[i] in y.value;
        EntryIsUnique(server, a, b, x.value[i], y.value[i]);
      }
      assert x.value == y.value;
    }
  }

  // ---------------------------------------------------------------- sorting a set

  function Inserted(items: seq<string>, v: string): seq<string> {
    if items == [] || Less(v, items[0]) then [v] + items else [items[0]] + Inserted(items[1..], v)
  }

  lemma {:induction false} InsertedAscends(items: seq<string>, v: string)
    requires Ascending(items) && v !in items
    ensures Ascending(Inserted(items, v))
    ensures forall x :: x in Inserted(items, v) <==> x == v || x in items
  {
    if items == [] {
    } else if Less(v, items[0]) {
      forall j | 0 < j < |items| ensures Less(v, items[j]) {
        LessTransitive(v, items[0], items[j]);
      }
    } else {
      LessTotal(v, items[0]);
      var rest := Inserted(items[1..], v);
      InsertedAscends(items[1..], v);
      assert items == [items[0]] + items[1..];
      forall j | 0 <= j < |rest| ensures Less(items[0], rest[j]) {
        assert rest[j] in rest;
      }
    }
  }

  method SortedSet(values: set<string>) returns (items: seq<string>)
    ensures Ascending(items)
    ensures forall v :: v in items <==> v in values
  {
    items := [];
    var rest := values;
    while rest != {}
      invariant rest <= values && Ascending(items)
      invariant forall v :: v in items <==> v in values && v !in rest
      decreases rest
    {
      var v :| v in rest;
      InsertedAscends(items, v);
      items := Inserted(items, v);
      rest := rest - {v};
    }
  }

  // ---------------------------------------------------------------- discovery

  datatype Aggregate = Aggregate(owners: set<string>, providers: set<string>, accounts: set<string>)

  /** What one listed or defined model adds to the catalog. */
  datatype Contribution = Contribution(id: string, owner: string, providers: set<string>, accounts: set<string>)

  function FromListing(f: AuthFile, r: Ref): Contribution {
    Contribution(r.id, r.owner, {ProviderOf(f)}, {f.name})
  }

  function AddSet(sets: Links, key: string, value: string): Links {
    sets[key := (if key in sets then sets[key] else {}) + {value}]
  }

  predicate In(sets: Links, key: string, value: string) {
    key in sets && value in sets[key]
  }

  predicate NoneEmpty(sets: Links) {
    forall key :: key in sets ==> sets[key] != {}
  }

  lemma AddSetAdds(sets: Links, key: string, value: string)
    ensures NoneEmpty(sets) ==> NoneEmpty(AddSet(sets, key, value))
    ensures forall k, v :: In(AddSet(sets, key, value), k, v) <==> In(sets, k, v) || (k == key && v == value)
  {
  }

  type Models = map<string, Aggregate>

  ghost predicate SameIds(models: Models, given: set<Contribution>) {
    forall id :: id in models <==> exists c :: c in given && c.id == id
  }

  ghost predicate SameOwners(models: Models, given: set<Contribution>) {
    forall id, o :: id in models ==>
      (o in models[id].owners <==> o != "" && exists c :: c in given && c.id == id && c.owner == o)
  }

  ghost predicate SameProviders(models: Models, given: set<Contribution>) {
    forall id, p :: id in models ==>
      (p in models[id].providers <==> exists c :: c in given && c.id == id && p in c.providers)
  }

  ghost predicate SameAccounts(models: Models, given: set<Contribution>) {
    forall id, a :: id in models ==>
      (a in models[id].accounts <==> exists c :: c in given && c.id == id && a in c.accounts)
  }

  lemma IdsGrow(models: Models, given: set<Contribution>, c: Contribution, grown: Aggregate)
    requires SameIds(models, given)
    ensures SameIds(models[c.id := grown], given + {c})
  {
  }

  lemma OwnersGrow(models: Models, given: set<Contribution>, c: Contribution, grown: Aggregate)
    requires SameIds(models, given) && SameOwners(models, given)
    requires grown.owners ==
      (if c.id in models then models[c.id].owners else {}) + if c.owner != "" then {c.owner} else {}
    ensures SameOwners(models[c.id := grown], given + {c})
  {
  }

  lemma ProvidersGrow(models: Models, given: set<Contribution>, c: Contribution, grown: Aggregate)
    requires SameIds(models, given) && SameProviders(models, given)
    requires grown.providers == (if c.id in models then models[c.id].providers else {}) + c.providers
    ensures SameProviders(models[c.id := grown], given + {c})
  {
  }

  lemma AccountsGrow(models: Models, given: set<Contribution>, c: Contribution, grown: Aggregate)
    requires SameIds(models, given) && SameAccounts(models, given)
    requires grown.accounts == (if c.id in models then models[c.id].accounts else {}) + c.accounts
    ensures SameAccounts(models[c.id := grown], given + {c})
  {
  }

  class Discovery {
    var models: map<string, Aggregate>
    var channels: Links
    var accounts: Links
    ghost var given: set<Contribution>

    constructor ()
      ensures Aggregated() && models == map[] && channels == map[] && accounts == map[] && given == {}
    {
      models, channels, accounts, given := map[], map[], map[], {};
    }

    /** The aggregates are the unions of what was given. */
    ghost predicate Aggregated()
      reads this`models, this`given
    {
      SameIds(models, given) && SameOwners(models, given) && SameProviders(models, given) && SameAccounts(models, given)
    }

    method Contribute(c: Contribution)
      requires Aggregated()
      modifies this`models, this`given
      ensures Aggregated() && given == old(given) + {c}
    {
      var was := if c.id in models then models[c.id] else Aggregate({}, {}, {});
      var owners := if c.owner != "" then was.owners + {c.owner} else was.owners;
      var grown := Aggregate(owners, was.providers + c.providers, was.accounts + c.accounts);
      IdsGrow(models, given, c, grown);
      OwnersGrow(models, given, c, grown);
      ProvidersGrow(models, given, c, grown);
      AccountsGrow(models, given, c, grown);
      hide SameIds, SameOwners, SameProviders, SameAccounts;
      models := models[c.id := grown];
      given := given + {c};
    }

    /** One listed model of an enabled credential. */
    method AddListing(f: AuthFile, r: Ref)
      requires Aggregated() && NoneEmpty(channels)
      modifies this`models, this`given, this`channels
      ensures Aggregated() && NoneEmpty(channels)
      ensures given == old(given) + if r.id != "" then {FromListing(f, r)} else {}
      ensures forall ch, p :: In(channels, ch, p) <==>
        In(old(channels), ch, p) || (p == ProviderOf(f) && r.id != "" && ch != "" && r.channel == ch)
    {
      AddSetAdds(channels, r.channel, ProviderOf(f));
      hide Aggregated, In, AddSet, NoneEmpty;
      if r.id != "" {
        Contribute(FromListing(f, r));
        if r.channel != "" {
          channels := AddSet(channels, r.channel, ProviderOf(f));
        }
      }
    }

    method AddListings(f: AuthFile, refs: seq<Ref>)
      requires Aggregated() && NoneEmpty(channels)
      modifies this`models, this`given, this`channels
      ensures Aggregated() && NoneEmpty(channels)
      ensures forall c :: c in given <==> c in old(given) || ListedIn(f, refs, c)
      ensures forall ch, p ::
        In(channels, ch, p) <==> In(old(channels), ch, p) || (p == ProviderOf(f) && NamedIn(refs, ch))
    {
      hide Aggregated, In, NoneEmpty;
      for i := 0 to |refs|
        invariant Aggregated() && NoneEmpty(channels)
        invariant forall c :: c in given <==> c in old(given) || ListedIn(f, refs[..i], c)
        invariant forall ch, p ::
          In(channels, ch, p) <==> In(old(channels), ch, p) || (p == ProviderOf(f) && NamedIn(refs[..i], ch))
      {
        assert refs[..i + 1] == refs[..i] + [refs[i]];
        OneMore(f, refs[..i], refs[i]);
        hide ListedIn, NamedIn;
        AddListing(f, refs[i]);
      }
      assert refs[..|refs|] == refs;
    }

    /** One credential: its account, its channels and the models it lists. */
    method AddCredential(server: Server, f: AuthFile) returns (ok: bool)
      requires Aggregated() && NoneEmpty(channels)
      modifies this
      ensures ok <==> f.disabled || server.models(f.name).Some?
      ensures Aggregated() && NoneEmpty(channels)
      ensures ok ==> forall c ::
        c in given <==> c in old(given) || exists r :: Lists(server, f, r) && c == FromListing(f, r)
      ensures ok ==> forall ch, p ::
        In(channels, ch, p) <==> In(old(channels), ch, p) || (PutsBehind(server, f, ch) && p == ProviderOf(f))
      ensures ok ==> forall p, a ::
        In(accounts, p, a) <==> In(old(accounts), p, a) || (!f.disabled && p == ProviderOf(f) && a == f.name)
    {
      AddSetAdds(accounts, ProviderOf(f), f.name);
      AddSetAdds(channels, f.provider, ProviderOf(f));
      hide Aggregated, In, NoneEmpty, AddSet;
      if f.disabled {
        return true;
      }
      accounts := AddSet(accounts, ProviderOf(f), f.name);
      if f.provider != "" {
        channels := AddSet(channels, f.provider, ProviderOf(f));
      }
      var answer := server.models(f.name);
      if answer.None? {
        return false;
      }
      AddListings(f, answer.value);
      assert forall r :: Lists(server, f, r) <==> r in answer.value && r.id != "";
      return true;
    }

    /** Every credential in turn; the first failing request ends it. */
    method DiscoverCredentials(server: Server, files: seq<AuthFile>) returns (ok: bool)
      requires Aggregated() && given == {} && channels == map[] && accounts == map[]
      modifies this
      ensures ok <==> !CredentialFails(server, files)
      ensures ok ==> Aggregated() && NoneEmpty(channels) && Collected(server, files, given, channels, accounts)
    {
      CollectedNothing(server);
      assert NoneEmpty(channels);
      hide Aggregated, Collected, In, NoneEmpty;
      for i := 0 to |files|
        invariant Aggregated() && NoneEmpty(channels)
        invariant !CredentialFails(server, files[..i])
        invariant Collected(server, files[..i], given, channels, accounts)
      {
        ghost var before, links, names := given, channels, accounts;
        var fine := AddCredential(server, files[i]);
        assert files[..i + 1] == files[..i] + [files[i]];
        if !fine {
          assert files[i] in files;
          return false;
        }
        CollectedOneMore(server, files[..i], files[i], before, links, names, given, channels, accounts);
      }
      assert files[..|files|] == files;
      return true;
    }

    /** The accounts of all the providers behind a channel. */
    method AccountsBehind(channel: string) returns (names: set<string>)
      requires channel in channels
      ensures names == Gathered(channels, accounts, channel)
    {
      var providers := SortedSet(channels[channel]);
      names := {};
      for i := 0 to |providers|
        invariant forall a :: a in names <==> exists p :: p in providers[..i] && In(accounts, p, a)
      {
        assert providers[..i + 1] == providers[..i] + [providers[i]];
        assert forall a :: In(accounts, providers[i], a) <==> providers[i] in accounts && a in accounts[providers[i]];
        if providers[i] in accounts {
          names := names + accounts[providers[i]];
        }
      }
      assert providers[..|providers|] == providers;
    }

    /** One channel: its definitions go to every provider behind it. */
    method AddDefinitions(server: Server, channel: string) returns (ok: bool)
      requires Aggregated() && channel in channels
      modifies this`models, this`given
      ensures ok <==> server.definitions(channel).Some?
      ensures ok ==> Aggregated()
      ensures ok ==> forall c :: c in given <==> c in old(given) || FromChannel(server, channels, accounts, channel, c)
    {
      var answer := server.definitions(channel);
      if answer.None? {
        return false;
      }
      var defs := answer.value;
      var names := AccountsBehind(channel);
      hide Aggregated, Gathered;
      for i := 0 to |defs|
        invariant Aggregated()
        invariant forall c ::
          c in given <==>
            || c in old(given)
            || exists d :: d in defs[..i] && d.id != "" && c == FromDefinition(d, channels[channel], names)
      {
        assert defs[..i + 1] == defs[..i] + [defs[i]];
        if defs[i].id != "" {
          Contribute(FromDefinition(defs[i], channels[channel], names));
        }
      }
      assert defs[..|defs|] == defs;
      assert forall d :: Defines(server, channel, d) <==> d in defs && d.id != "";
      return true;
    }

    method DiscoverDefinitions(server: Server) returns (ok: bool)
      requires Aggregated()
      modifies this`models, this`given
      ensures ok <==> forall ch :: ch in channels ==> server.definitions(ch).Some?
      ensures ok ==> Aggregated()
      ensures ok ==> forall c ::
        c in given <==>
          c in old(given) || exists ch :: ch in channels && FromChannel(server, channels, accounts, ch, c)
    {
      hide Aggregated, FromChannel;
      var names := SortedSet(channels.Keys);
      for i := 0 to |names|
        invariant Aggregated()
        invariant forall ch :: ch in names[..i] ==> server.definitions(ch).Some?
        invariant forall c ::
          c in given <==>
            c in old(given) || exists ch :: ch in names[..i] && FromChannel(server, channels, accounts, ch, c)
      {
        assert names[..i + 1] == names[..i] + [names[i]];
        assert names[i] in names;
        var fine := AddDefinitions(server, names[i]);
        if !fine {
          return false;
        }
      }
      assert names[..|names|] == names;
      return true;
    }

    /** One entry: the least owner, the providers in order, the number of accounts. */
    method RenderEntry(id: string) returns (e: Entry)
      requires id in models
      ensures e.id == id && Ascending(e.providers) && e.accounts == |models[id].accounts|
      ensures models[id].providers != {} ==> forall p :: p in e.providers <==> p in models[id].providers
      ensures if models[id].owners == {} then e.owner == "" else e.owner in models[id].owners
      ensures forall o :: o in models[id].owners ==> o == e.owner || Less(e.owner, o)
    {
      var owners := SortedSet(models[id].owners);
      HasFirst(owners);
      assert owners == [] ==> forall o :: o in models[id].owners ==> o in owners;
      var owner := if owners != [] then owners[0] else "";
      var providers := SortedSet(models[id].providers);
      HasFirst(providers);
      if providers == [] {
        assert forall p :: p in models[id].providers ==> p in providers;
        providers := [UNKNOWN_PROVIDER];
      }
      e := Entry(id, owner, providers, |models[id].accounts|);
    }

    method Render(ghost server: Server, ghost files: seq<AuthFile>) returns (entries: seq<Entry>)
      requires Means(server, files, models)
      ensures IsCatalog(server, files, entries)
    {
      hide Means, Describes, Provides, Ascending, IsCatalog;
      var ids := SortedSet(models.Keys);
      entries := [];
      for i := 0 to |ids|
        invariant Ids(entries) == ids[..i]
        invariant forall e :: e in entries ==> Describes(server, files, e)
      {
        assert ids[i] in ids;
        var e := RenderEntry(ids[i]);
        MeansDescribes(server, files, models, e);
        assert ids[..i + 1] == ids[..i] + [ids[i]];
        assert Ids(entries + [e]) == Ids(entries) + [e.id];
        entries := entries + [e];
      }
      assert ids[..|ids|] == ids;
      RenderedIsCatalog(server, files, models, entries);
    }

    method Discover(server: Server, files: seq<AuthFile>) returns (r: Result<seq<Entry>, Problem>)
      requires Aggregated() && given == {} && models == map[] && channels == map[] && accounts == map[]
      modifies this
      ensures Outcome(server, files, r)
    {
      hide Aggregated, IsCatalog, Means, CredentialFails, NoneEmpty, Behind, Served, In, FromChannel, AccountOf, Listed;
      var fine := DiscoverCredentials(server, files);
      if !fine {
        return Failure(CredentialModels);
      }
      ChannelsAreServed(server, files, channels);
      fine := DiscoverDefinitions(server);
      if !fine {
        return Failure(Definitions);
      }
      GivenMeans(server, files);
      var entries := Render(server, files);
      return Success(entries);
    }

    lemma GivenMeans(server: Server, files: seq<AuthFile>)
      requires Aggregated() && Complete(server, files, given, channels, accounts)
      ensures Means(server, files, models)
    {
      hide Complete, Induces, Provides, Accounts, OwnedBy, SameIds, SameOwners, SameProviders, SameAccounts;
      GivenHaveProviders(server, files, given, channels, accounts);
      GivenAre(server, files, given, channels, accounts);
      IdsMean(server, files, models, given);
      ProvidersMean(server, files, models, given);
      AccountsMean(server, files, models, given);
      OwnersMean(server, files, models, given);
    }
  }

  /** Discovery through the management service: all of it, or the first problem. No listing is a failed request. */
  method DiscoverManagement(server: Server, listing: Option<seq<AuthFile>>)
    returns (r: Result<seq<Entry>, Problem>)
    ensures listing.None? ==> r == Failure(Credentials)
    ensures listing.Some? ==> Outcome(server, listing.value, r)
    ensures listing.Some? && r.Success? ==>
      && (forall e, p :: e in r.value && p in e.providers ==> Names(listing.value, p))
      && (forall f, m :: f in listing.value && Lists(server, f, m) ==>
            exists e ::
              e in r.value && e.id == m.id && (if f.provider == "" then "unknown" else f.provider) in e.providers)
  {
    if listing.None? {
      return Failure(Credentials);
    }
    var found := new Discovery();
    hide *;
    r := found.Discover(server, listing.value);
    if r.Success? {
      CatalogNames(server, listing.value, r);
    }
  }

  /** An enabled credential has this provider, or has none and the provider is the unknown one. */
  ghost predicate Names(files: seq<AuthFile>, provider: string) {
    exists f :: f in files && !f.disabled && (f.provider == provider || (f.provider == "" && provider == "unknown"))
  }

  lemma CatalogNames(server: Server, files: seq<AuthFile>, r: Result<seq<Entry>, Problem>)
    requires Outcome(server, files, r) && r.Success?
    ensures forall e, p :: e in r.value && p in e.providers ==> Names(files, p)
    ensures forall f, m :: f in files && Lists(server, f, m) ==>
      exists e :: e in r.value && e.id == m.id && (if f.provider == "" then "unknown" else f.provider) in e.providers
  {
    forall e, p | e in r.value && p in e.providers ensures Names(files, p) {
      assert Describes(server, files, e) && Provides(server, files, e.id, p);
      ProvidesNames(server, files, e.id, p);
    }
    forall f, m | f in files && Lists(server, f, m)
      ensures exists e ::
        e in r.value && e.id == m.id && (if f.provider == "" then "unknown" else f.provider) in e.providers
    {
      assert Provides(server, files, m.id, ProviderOf(f));
      assert m.id in Ids(r.value);
      var i :| 0 <= i < |r.value| && Ids(r.value)[i] == m.id;
      assert r.value[i] in r.value && Describes(server, files, r.value[i]);
    }
  }

  lemma ProvidesNames(server: Server, files: seq<AuthFile>, id: string, provider: string)
    requires Provides(server, files, id, provider)
    ensures Names(files, provider)
  {
    if f, m :| f in files && Lists(server, f, m) && m.id == id && ProviderOf(f) == provider {
    } else {
      var channel, d :| Behind(server, files, channel, provider) && Defines(server, channel, d) && d.id == id;
      var f :| f in files && PutsBehind(server, f, channel) && ProviderOf(f) == provider;
    }
  }

  // ---------------------------------------------------------------- what was gathered is what the catalog means

  function FromDefinition(d: Ref, providers: set<string>, accounts: set<string>): Contribution {
    Contribution(d.id, d.owner, providers, accounts)
  }

  ghost function Gathered(channels: Links, accounts: Links, channel: string): (names: set<string>)
    requires channel in channels
    ensures forall a :: a in names <==> exists p :: p in channels[channel] && In(accounts, p, a)
  {
    set p, a | p in channels[channel] && p in accounts && a in accounts[p] :: a
  }

  ghost predicate FromChannel(server: Server, channels: Links, accounts: Links,
                              channel: string, c: Contribution)
    requires channel in channels
  {
    exists d ::
      Defines(server, channel, d) && c == FromDefinition(d, channels[channel], Gathered(channels, accounts, channel))
  }

  ghost predicate AccountOf(files: seq<AuthFile>, provider: string, name: string) {
    exists f :: f in files && !f.disabled && ProviderOf(f) == provider && f.name == name
  }

  ghost predicate Listed(server: Server, files: seq<AuthFile>, c: Contribution) {
    exists f, r :: f in files && Lists(server, f, r) && c == FromListing(f, r)
  }

  /** What the credentials alone give. */
  ghost predicate Collected(server: Server, files: seq<AuthFile>, given: set<Contribution>,
                            channels: Links, accounts: Links) {
    && (forall c :: c in given <==> Listed(server, files, c))
    && (forall ch, p :: In(channels, ch, p) <==> Behind(server, files, ch, p))
    && (forall p, a :: In(accounts, p, a) <==> AccountOf(files, p, a))
  }

  /** What the credentials and the channels give together. */
  ghost predicate Complete(server: Server, files: seq<AuthFile>, given: set<Contribution>,
                           channels: Links, accounts: Links) {
    && NoneEmpty(channels)
    && (forall c ::
          c in given <==>
            Listed(server, files, c) || exists ch :: ch in channels && FromChannel(server, channels, accounts, ch, c))
    && (forall ch, p :: In(channels, ch, p) <==> Behind(server, files, ch, p))
    && (forall p, a :: In(accounts, p, a) <==> AccountOf(files, p, a))
  }

  lemma ChannelsAreServed(server: Server, files: seq<AuthFile>, channels: Links)
    requires NoneEmpty(channels) && forall ch, p :: In(channels, ch, p) <==> Behind(server, files, ch, p)
    ensures forall ch :: ch in channels <==> Served(server, files, ch)
  {
    hide PutsBehind;
    forall ch ensures ch in channels <==> Served(server, files, ch) {
      if ch in channels {
        var p :| p in channels[ch];
        assert In(channels, ch, p);
      }
      if Served(server, files, ch) {
        var f :| f in files && PutsBehind(server, f, ch);
        assert Behind(server, files, ch, ProviderOf(f));
        assert In(channels, ch, ProviderOf(f));
      }
    }
  }

  lemma GivenProviders(server: Server, files: seq<AuthFile>, given: set<Contribution>,
                       channels: Links, accounts: Links, id: string, p: string)
    requires Complete(server, files, given, channels, accounts)
    ensures (exists c :: c in given && c.id == id && p in c.providers) <==> Provides(server, files, id, p)
  {
    hide Lists, Defines, Behind, AccountOf;
    if c :| c in given && c.id == id && p in c.providers {
      if !Listed(server, files, c) {
        var ch :| ch in channels && FromChannel(server, channels, accounts, ch, c);
        assert In(channels, ch, p);
      }
    }
    if f, r :| f in files && Lists(server, f, r) && r.id == id && ProviderOf(f) == p {
      assert Listed(server, files, FromListing(f, r));
    }
    if ch, d :| Behind(server, files, ch, p) && Defines(server, ch, d) && d.id == id {
      assert In(channels, ch, p);
      var c := FromDefinition(d, channels[ch], Gathered(channels, accounts, ch));
      assert FromChannel(server, channels, accounts, ch, c);
    }
  }

  lemma GivenAccounts(server: Server, files: seq<AuthFile>, given: set<Contribution>,
                      channels: Links, accounts: Links, id: string, a: string)
    requires Complete(server, files, given, channels, accounts)
    ensures (exists c :: c in given && c.id == id && a in c.accounts) <==> a in Accounts(server, files, id)
  {
    hide Defines, Behind;
    if c :| c in given && c.id == id && a in c.accounts {
      if Listed(server, files, c) {
        var f, r :| f in files && Lists(server, f, r) && c == FromListing(f, r);
        assert Offers(server, files, f, id);
      } else {
        var ch :| ch in channels && FromChannel(server, channels, accounts, ch, c);
        var p :| p in channels[ch] && In(accounts, p, a);
        assert In(channels, ch, p) && AccountOf(files, p, a);
        var f :| f in files && !f.disabled && ProviderOf(f) == p && f.name == a;
        assert Offers(server, files, f, id);
      }
    }
    if a in Accounts(server, files, id) {
      var f :| f in files && Offers(server, files, f, id) && f.name == a;
      if r :| Lists(server, f, r) && r.id == id {
        assert Listed(server, files, FromListing(f, r));
      } else {
        var ch, d :| Behind(server, files, ch, ProviderOf(f)) && Defines(server, ch, d) && d.id == id;
        assert In(channels, ch, ProviderOf(f)) && AccountOf(files, ProviderOf(f), a) && In(accounts, ProviderOf(f), a);
        var c := FromDefinition(d, channels[ch], Gathered(channels, accounts, ch));
        assert FromChannel(server, channels, accounts, ch, c);
      }
    }
  }

  lemma GivenOwners(server: Server, files: seq<AuthFile>, given: set<Contribution>,
                    channels: Links, accounts: Links, id: string, o: string)
    requires Complete(server, files, given, channels, accounts)
    ensures o != "" && (exists c :: c in given && c.id == id && c.owner == o) <==> OwnedBy(server, files, id, o)
  {
    ChannelsAreServed(server, files, channels);
    if c :| c in given && c.id == id && c.owner == o {
      hide Defines, Behind, Served, Lists, AccountOf, Gathered, In, NoneEmpty;
      if !Listed(server, files, c) {
        var ch :| ch in channels && FromChannel(server, channels, accounts, ch, c);
      }
    }
    if o != "" && OwnedBy(server, files, id, o) {
      OwnersGiven(server, files, given, channels, accounts, id, o);
    }
  }

  lemma OwnersGiven(server: Server, files: seq<AuthFile>, given: set<Contribution>,
                    channels: Links, accounts: Links, id: string, o: string)
    requires Complete(server, files, given, channels, accounts) && OwnedBy(server, files, id, o)
    requires forall ch :: ch in channels <==> Served(server, files, ch)
    ensures exists c :: c in given && c.id == id && c.owner == o
  {
    hide Defines, Behind, Served, Lists, AccountOf, Gathered, In, NoneEmpty;
    if f, r :| f in files && Lists(server, f, r) && r.id == id && r.owner == o {
      assert Listed(server, files, FromListing(f, r));
      assert FromListing(f, r) in given;
    } else {
      var ch, d :| Served(server, files, ch) && Defines(server, ch, d) && d.id == id && d.owner == o;
      var c := FromDefinition(d, channels[ch], Gathered(channels, accounts, ch));
      assert FromChannel(server, channels, accounts, ch, c);
      assert c in given;
    }
  }

  /** The contributions induce exactly the relations the catalog is defined by. */
  ghost predicate Induces(server: Server, files: seq<AuthFile>, given: set<Contribution>) {
    && (forall id, p :: (exists c :: c in given && c.id == id && p in c.providers) <==> Provides(server, files, id, p))
    && (forall id, a :: (exists c :: c in given && c.id == id && a in c.accounts) <==> a in Accounts(server, files, id))
    && (forall id, o ::
          o != "" && (exists c :: c in given && c.id == id && c.owner == o) <==> OwnedBy(server, files, id, o))
  }

  lemma GivenAre(server: Server, files: seq<AuthFile>, given: set<Contribution>,
                 channels: Links, accounts: Links)
    requires Complete(server, files, given, channels, accounts)
    ensures Induces(server, files, given)
  {
    hide Complete, Provides, Accounts, OwnedBy;
    forall id, p
      ensures (exists c :: c in given && c.id == id && p in c.providers) <==> Provides(server, files, id, p)
    {
      GivenProviders(server, files, given, channels, accounts, id, p);
    }
    forall id, a
      ensures (exists c :: c in given && c.id == id && a in c.accounts) <==> a in Accounts(server, files, id)
    {
      GivenAccounts(server, files, given, channels, accounts, id, a);
    }
    forall id, o
      ensures o != "" && (exists c :: c in given && c.id == id && c.owner == o) <==> OwnedBy(server, files, id, o)
    {
      GivenOwners(server, files, given, channels, accounts, id, o);
    }
  }

  /** Whatever gives a model gives it a provider. */
  lemma GivenHaveProviders(server: Server, files: seq<AuthFile>, given: set<Contribution>,
                           channels: Links, accounts: Links)
    requires Complete(server, files, given, channels, accounts)
    ensures forall c :: c in given ==> c.providers != {}
  {
    hide Defines, Behind, Lists, AccountOf, In;
    forall c | c in given ensures c.providers != {} {
      if Listed(server, files, c) {
        var f, r :| f in files && Lists(server, f, r) && c == FromListing(f, r);
        assert ProviderOf(f) in c.providers;
      }
    }
  }

  lemma CollectedNothing(server: Server)
    ensures Collected(server, [], {}, map[], map[])
  {
  }

  lemma CollectedOneMore(server: Server, files: seq<AuthFile>, f: AuthFile,
                         given: set<Contribution>, channels: Links, accounts: Links,
                         given': set<Contribution>, channels': Links, accounts': Links)
    requires Collected(server, files, given, channels, accounts)
    requires forall c :: c in given' <==> c in given || exists r :: Lists(server, f, r) && c == FromListing(f, r)
    requires forall ch, p ::
      In(channels', ch, p) <==> In(channels, ch, p) || (PutsBehind(server, f, ch) && p == ProviderOf(f))
    requires forall p, a ::
      In(accounts', p, a) <==> In(accounts, p, a) || (!f.disabled && p == ProviderOf(f) && a == f.name)
    ensures Collected(server, files + [f], given', channels', accounts')
  {
    hide In, Lists, PutsBehind;
    assert forall x :: x in files + [f] <==> x in files || x == f;
    assert forall c ::
      Listed(server, files + [f], c) <==>
        Listed(server, files, c) || exists r :: Lists(server, f, r) && c == FromListing(f, r);
    assert forall ch, p ::
      Behind(server, files + [f], ch, p) <==>
        Behind(server, files, ch, p) || (PutsBehind(server, f, ch) && p == ProviderOf(f));
  }

  /** The aggregates are what the catalog means. */
  ghost predicate Means(server: Server, files: seq<AuthFile>, models: map<string, Aggregate>) {
    && (forall id :: id in models <==> exists p :: Provides(server, files, id, p))
    && (forall id :: id in models ==> models[id].providers != {})
    && (forall id, p :: id in models ==> (p in models[id].providers <==> Provides(server, files, id, p)))
    && (forall id :: id in models ==> models[id].accounts == Accounts(server, files, id))
    && (forall id, o :: id in models ==> (o in models[id].owners <==> OwnedBy(server, files, id, o)))
  }

  lemma IdsMean(server: Server, files: seq<AuthFile>, models: Models, given: set<Contribution>)
    requires SameIds(models, given)
    requires forall c :: c in given ==> c.providers != {}
    requires Induces(server, files, given)
    ensures forall id :: id in models <==> exists p :: Provides(server, files, id, p)
  {
    hide Provides, Accounts, OwnedBy;
    forall id ensures id in models <==> exists p :: Provides(server, files, id, p) {
      if id in models {
        var c :| c in given && c.id == id;
        var p :| p in c.providers;
        assert Provides(server, files, id, p);
      }
    }
  }

  lemma ProvidersMean(server: Server, files: seq<AuthFile>, models: Models, given: set<Contribution>)
    requires SameIds(models, given) && SameProviders(models, given)
    requires forall c :: c in given ==> c.providers != {}
    requires Induces(server, files, given)
    ensures forall id :: id in models ==> models[id].providers != {}
    ensures forall id, p :: id in models ==> (p in models[id].providers <==> Provides(server, files, id, p))
  {
    hide Provides, Accounts, OwnedBy;
    forall id | id in models ensures models[id].providers != {} {
      var c :| c in given && c.id == id;
      var p :| p in c.providers;
      assert p in models[id].providers;
    }
  }

  lemma OwnersMean(server: Server, files: seq<AuthFile>, models: Models, given: set<Contribution>)
    requires SameOwners(models, given) && Induces(server, files, given)
    ensures forall id, o :: id in models ==> (o in models[id].owners <==> OwnedBy(server, files, id, o))
  {
    hide OwnedBy, Provides, Accounts;
  }

  lemma AccountsMean(server: Server, files: seq<AuthFile>, models: Models, given: set<Contribution>)
    requires SameAccounts(models, given)
    requires Induces(server, files, given)
    ensures forall id :: id in models ==> models[id].accounts == Accounts(server, files, id)
  {
    hide Provides, Accounts, OwnedBy;
    forall id | id in models ensures models[id].accounts == Accounts(server, files, id) {
      forall a ensures a in models[id].accounts <==> a in Accounts(server, files, id) {
      }
    }
  }

  lemma RenderedIsCatalog(server: Server, files: seq<AuthFile>, models: map<string, Aggregate>, entries: seq<Entry>)
    requires Means(server, files, models) && Ascending(Ids(entries))
    requires forall id :: id in Ids(entries) <==> id in models
    requires forall e :: e in entries ==> Describes(server, files, e)
    ensures IsCatalog(server, files, entries)
  {
    hide Describes, Provides, Ascending;
  }

  lemma MeansDescribes(server: Server, files: seq<AuthFile>, models: map<string, Aggregate>, e: Entry)
    requires Means(server, files, models) && e.id in models
    requires Ascending(e.providers) && e.accounts == |models[e.id].accounts|
    requires models[e.id].providers != {} ==> forall p :: p in e.providers <==> p in models[e.id].providers
    requires if models[e.id].owners == {} then e.owner == "" else e.owner in models[e.id].owners
    requires forall o :: o in models[e.id].owners ==> o == e.owner || Less(e.owner, o)
    ensures Describes(server, files, e)
  {
    hide Accounts, Provides;
    assert !OwnedBy(server, files, e.id, "");
  }

  ghost predicate ListedIn(f: AuthFile, refs: seq<Ref>, c: Contribution) {
    exists r :: r in refs && r.id != "" && c == FromListing(f, r)
  }

  ghost predicate NamedIn(refs: seq<Ref>, channel: string) {
    channel != "" && exists r :: r in refs && r.id != "" && r.channel == channel
  }

  lemma OneMore(f: AuthFile, refs: seq<Ref>, r: Ref)
    ensures forall c :: ListedIn(f, refs + [r], c) <==> ListedIn(f, refs, c) || (r.id != "" && c == FromListing(f, r))
    ensures forall ch :: NamedIn(refs + [r], ch) <==> NamedIn(refs, ch) || (r.id != "" && ch != "" && r.channel == ch)
  {
    assert forall x :: x in refs + [r] <==> x in refs || x == r;
  }
}
