/**
 Loading the settings of every installed app (authentik/root/settings.py): mutually recursive
 functions that extend two global lists, against the closure they compute.
 */
module Settings {
  import opened Common

  /** The app lists an app's settings module declares. */
  datatype Module = Module(shared: seq<string>, tenant: seq<string>)

  /** The settings modules that can be imported, by app. */
  type Modules = map<string, Module>

  datatype Kind = Shared | Tenant

  function Declared(m: Module, kind: Kind): seq<string> { if kind.Shared? then m.shared else m.tenant }

  predicate IsOurs(app: string) { "authentik" <= app }

  /** The module that `_filter_and_update` loads for an app, if any. */
  function ModuleOf(modules: Modules, app: string): Option<Module>
  {
    if IsOurs(app) && app in modules then Some(modules[app]) else None
  }

  function Listed(modules: Modules, app: string, kind: Kind): seq<string>
  {
    match ModuleOf(modules, app) case None => [] case Some(m) => Declared(m, kind)
  }

  /** `parent` is one of our apps, with a settings module that declares `app` in the list. */
  predicate Brings(modules: Modules, parent: string, kind: Kind, app: string)
  {
    && |parent| >= 9 && parent[..9] == "authentik" && parent in modules
    && app in (match kind case Shared => modules[parent].shared case Tenant => modules[parent].tenant)
  }

  lemma BringsListed(modules: Modules, parent: string, kind: Kind, app: string)
    ensures Brings(modules, parent, kind, app) <==> app in Listed(modules, parent, kind)
  {
    assert |"authentik"| == 9;
    assert IsOurs(parent) <==> |parent| >= 9 && parent[..9] == "authentik";
  }

  /** `subtract_list`. */
  function Subtract<T(==)>(a: seq<T>, b: seq<T>): seq<T>
  {
    if a == [] then [] else (if a[0] in b then [] else [a[0]]) + Subtract(a[1..], b)
  }

  lemma {:induction false} SubtractMember<T>(a: seq<T>, b: seq<T>, x: T)
    ensures x in Subtract(a, b) <==> x in a && x !in b
  {
    if a != [] {
      SubtractMember(a[1..], b, x);
      assert a == [a[0]] + a[1..];
    }
  }

  // ---------------------------------------------------------------------------
  // The closure, by derivations
  // ---------------------------------------------------------------------------

  /** Everything the result depends on. */
  datatype Setup = Setup(modules: Modules, shared: seq<string>, tenant: seq<string>, user: Option<Module>) {
    function Initial(kind: Kind): seq<string> { if kind.Shared? then shared else tenant }

    /** `app` is listed by a chain of `n` declarations from the initial lists or the user's settings. */
    ghost predicate Derived(kind: Kind, app: string, n: nat)
      decreases n, 0
    {
      if n == 0 then app in Initial(kind) || (user.Some? && app in Declared(user.value, kind))
      else exists parent :: Brings(modules, parent, kind, app) && DerivedAny(parent, n - 1)
    }

    ghost predicate DerivedAny(app: string, n: nat)
      decreases n, 1
    {
      Derived(Shared, app, n) || Derived(Tenant, app, n)
    }

    ghost function Universe(): set<string>
    {
      Names(shared) + Names(tenant) + (if user.Some? then Names(user.value.shared) + Names(user.value.tenant) else {})
      + (set m, a | m in modules.Values && a in m.shared + m.tenant :: a)
    }

    ghost function Closure(kind: Kind): set<string>
    {
      set app | app in Universe() && exists n: nat :: Derived(kind, app, n)
    }

    lemma DerivedIsKnown(kind: Kind, app: string, n: nat)
      requires Derived(kind, app, n)
      ensures app in Universe()
    {
      if n > 0 {
        var parent :| Brings(modules, parent, kind, app) && DerivedAny(parent, n - 1);
        var m := modules[parent];
        assert m in modules.Values && app in m.shared + m.tenant;
      }
    }

    lemma DerivedIsClosure(kind: Kind, app: string, n: nat)
      requires Derived(kind, app, n)
      ensures app in Closure(kind)
    {
      DerivedIsKnown(kind, app, n);
    }

    lemma ClosureIsClosed()
      ensures Closed(modules, Closure(Shared), Closure(Tenant))
    {
      forall parent, kind: Kind, app
        | parent in Closure(Shared) + Closure(Tenant) && Brings(modules, parent, kind, app)
        ensures app in Closure(kind)
      {
        var from := if parent in Closure(Shared) then Shared else Tenant;
        var n: nat :| Derived(from, parent, n);
        assert DerivedAny(parent, n);
        assert Derived(kind, app, n + 1);
        DerivedIsClosure(kind, app, n + 1);
      }
      forall parent | parent in Closure(Shared) + Closure(Tenant)
        ensures Loaded(modules, parent, Closure(Shared), Closure(Tenant))
      {
        forall app ensures app in Listed(modules, parent, Shared) ==> app in Closure(Shared)
                   ensures app in Listed(modules, parent, Tenant) ==> app in Closure(Tenant)
        {
          BringsListed(modules, parent, Shared, app);
          BringsListed(modules, parent, Tenant, app);
        }
      }
    }

    /** A closed pair of lists that holds the starting lists holds everything derivable. */
    lemma {:induction false} ClosedHoldsDerived(s: set<string>, t: set<string>, kind: Kind, app: string, n: nat)
      requires Closed(modules, s, t) && Names(shared) <= s && Names(tenant) <= t
      requires user.Some? ==> Covers(user.value, s, t)
      requires Derived(kind, app, n)
      ensures app in if kind.Shared? then s else t
      decreases n
    {
      if n > 0 {
        var parent :| Brings(modules, parent, kind, app) && DerivedAny(parent, n - 1);
        ClosedHoldsDerived(s, t, if Derived(Shared, parent, n - 1) then Shared else Tenant, parent, n - 1);
        assert Loaded(modules, parent, s, t);
        BringsListed(modules, parent, kind, app);
      }
    }

    lemma ClosureIsLeast(s: set<string>, t: set<string>)
      requires Closed(modules, s, t) && Names(shared) <= s && Names(tenant) <= t
      requires user.Some? ==> Covers(user.value, s, t)
      ensures Closure(Shared) <= s && Closure(Tenant) <= t
    {
      forall kind: Kind, app | app in Closure(kind) ensures app in if kind.Shared? then s else t {
        var n: nat :| Derived(kind, app, n);
        ClosedHoldsDerived(s, t, kind, app, n);
      }
    }
  }

  function Names<T(==)>(apps: seq<T>): set<T> { set a | a in apps }

  lemma NamesConcat<T>(xs: seq<T>, ys: seq<T>)
    ensures Names(xs + ys) == Names(xs) + Names(ys)
  {
  }

  ghost predicate Covers(m: Module, s: set<string>, t: set<string>) { Names(m.shared) <= s && Names(m.tenant) <= t }

  /** The module of `app`, if any, has been taken into the lists. */
  ghost predicate Loaded(modules: Modules, app: string, s: set<string>, t: set<string>)
  {
    Names(Listed(modules, app, Shared)) <= s && Names(Listed(modules, app, Tenant)) <= t
  }

  /** Every listed app of ours has all apps its module declares listed too. */
  ghost predicate Closed(modules: Modules, s: set<string>, t: set<string>)
  {
    forall app :: app in s + t ==> Loaded(modules, app, s, t)
  }

  // ---------------------------------------------------------------------------
  // The loader
  // ---------------------------------------------------------------------------

  /** The names in the two lists. */
  datatype Lists = Lists(s: set<string>, t: set<string>)

  /** The lists only grew, and everything new has been loaded. */
  ghost predicate Grew(modules: Modules, a: Lists, b: Lists)
  {
    && a.s <= b.s && a.t <= b.t
    && forall app :: app in (b.s - a.s) + (b.t - a.t) ==> Loaded(modules, app, b.s, b.t)
  }

  ghost function Missing(top: Lists, now: Lists): nat { |top.s - now.s| + |top.t - now.t| }

  lemma LoadedStays(modules: Modules, app: string, a: Lists, b: Lists)
    requires a.s <= b.s && a.t <= b.t && Loaded(modules, app, a.s, a.t)
    ensures Loaded(modules, app, b.s, b.t)
  {
  }

  lemma GrewOn(modules: Modules, a: Lists, b: Lists, c: Lists)
    requires Grew(modules, a, b) && Grew(modules, b, c)
    ensures Grew(modules, a, c)
  {
    forall app | app in (c.s - a.s) + (c.t - a.t) ensures Loaded(modules, app, c.s, c.t) {
      hide Loaded;
      if app in (b.s - a.s) + (b.t - a.t) { LoadedStays(modules, app, b, c); }
    }
  }

  /** Extending the lists and then loading all that is new. */
  lemma ExtendAndLoad(modules: Modules, a: Lists, b: Lists, more: seq<string>, c: Lists)
    requires a.s <= b.s <= a.s + Names(more) && a.t <= b.t <= a.t + Names(more) && Grew(modules, b, c)
    requires forall app :: app in more ==> Loaded(modules, app, c.s, c.t)
    ensures Grew(modules, a, c)
  {
    hide Loaded;
  }

  class Loader {
    const modules: Modules
    var shared: seq<string>      // SHARED_APPS
    var tenant: seq<string>      // TENANT_APPS

    constructor (modules: Modules, shared: seq<string>, tenant: seq<string>)
      ensures this.modules == modules && this.shared == shared && this.tenant == tenant
    {
      this.modules, this.shared, this.tenant := modules, shared, tenant;
    }

    ghost function Now(): Lists reads this { Lists(Names(shared), Names(tenant)) }

    /** The lists stay inside a closed pair of sets, which bounds the recursion. */
    ghost predicate Inside(top: Lists)
      reads this
    {
      Closed(modules, top.s, top.t) && Now().s <= top.s && Now().t <= top.t
    }

    /** `_filter_and_update`, over the set of apps in any order. */
    method FilterAndUpdate(apps: seq<string>, ghost top: Lists)
      requires Inside(top) && Names(apps) <= top.s + top.t
      modifies this
      ensures Inside(top) && Grew(modules, old(Now()), Now()) && Missing(top, Now()) <= Missing(top, old(Now()))
      ensures old(shared) <= shared && old(tenant) <= tenant
      ensures forall a :: a in apps ==> Loaded(modules, a, Now().s, Now().t)
      decreases Missing(top, Now()), if apps == [] then 0 else 2
    {
      hide Loaded, Grew, Closed;
      var todo := Names(apps);
      GrewNone(modules, Now());
      while todo != {}
        invariant Inside(top) && Grew(modules, old(Now()), Now()) && todo <= Names(apps)
        invariant Missing(top, Now()) <= Missing(top, old(Now()))
        invariant old(shared) <= shared && old(tenant) <= tenant
        invariant forall a :: a in apps ==> a in todo || Loaded(modules, a, Now().s, Now().t)
        decreases |todo|
      {
        var app :| app in todo;
        ghost var before := Now();
        TopCovers(modules, top, app);
        if IsOurs(app) {
          UpdateSettings(ModuleOf(modules, app), top);
          GrewOn(modules, old(Now()), before, Now());
          LoadedLater(modules, apps, todo, before, Now());
        }
        NowLoaded(modules, app, Now());
        todo := todo - {app};
      }
    }

    /** Extends the lists by what `m` declares and they lack. */
    method Extend(m: Module, ghost top: Lists) returns (more: seq<string>)
      requires Inside(top) && Covers(m, top.s, top.t)
      modifies this
      ensures Inside(top) && Covers(m, Now().s, Now().t) && Names(more) <= top.s + top.t
      ensures Now().s <= old(Now()).s + Names(more) && Now().t <= old(Now()).t + Names(more)
      ensures old(Now()).s <= Now().s && old(Now()).t <= Now().t
      ensures shared == old(shared) + Subtract(m.shared, old(shared))
      ensures tenant == old(tenant) + Subtract(m.tenant, old(tenant))
      ensures if more == [] then Now() == old(Now()) else Missing(top, Now()) < Missing(top, old(Now()))
    {
      hide Closed, Names, Subtract;
      var newShared := Subtract(m.shared, shared);
      var newTenant := Subtract(m.tenant, tenant);
      ExtendShrinks(top.s, shared, m.shared);
      ExtendShrinks(top.t, tenant, m.tenant);
      NamesConcat(newShared, newTenant);
      shared := shared + newShared;
      tenant := tenant + newTenant;
      more := newShared + newTenant;
    }

    /** `_update_settings`; None is a module that cannot be imported. */
    method UpdateSettings(m: Option<Module>, ghost top: Lists)
      requires Inside(top) && (m.Some? ==> Covers(m.value, top.s, top.t))
      modifies this
      ensures Inside(top) && Grew(modules, old(Now()), Now()) && Missing(top, Now()) <= Missing(top, old(Now()))
      ensures m.Some? ==> Covers(m.value, Now().s, Now().t)
      ensures old(shared) <= shared && old(tenant) <= tenant
      ensures m.Some? ==> old(shared) + Subtract(m.value.shared, old(shared)) <= shared
      decreases Missing(top, Now()), 1
    {
      hide Loaded, Closed, Grew, Names, Missing, Subtract;
      GrewNone(modules, Now());
      if m.None? { return; }
      var more := Extend(m.value, top);
      ghost var extended := Now();
      FilterAndUpdate(more, top);
      GrewContains(modules, extended, Now());
      ExtendAndLoad(modules, old(Now()), extended, more, Now());
    }
  }

  lemma GrewNone(modules: Modules, a: Lists)
    ensures Grew(modules, a, a)
  {
  }

  lemma GrewContains(modules: Modules, a: Lists, b: Lists)
    requires Grew(modules, a, b)
    ensures a.s <= b.s && a.t <= b.t
  {
  }

  lemma TopCovers(modules: Modules, top: Lists, app: string)
    requires Closed(modules, top.s, top.t) && app in top.s + top.t
    ensures ModuleOf(modules, app).Some? ==> Covers(ModuleOf(modules, app).value, top.s, top.t)
  {
    assert Loaded(modules, app, top.s, top.t);
  }

  lemma LoadedLater(modules: Modules, apps: seq<string>, todo: set<string>, a: Lists, b: Lists)
    requires Grew(modules, a, b)
    requires forall app :: app in apps ==> app in todo || Loaded(modules, app, a.s, a.t)
    ensures forall app :: app in apps ==> app in todo || Loaded(modules, app, b.s, b.t)
  {
    hide Loaded;
    forall app | app in apps && app !in todo ensures Loaded(modules, app, b.s, b.t) { LoadedStays(modules, app, a, b); }
  }

  lemma NowLoaded(modules: Modules, app: string, now: Lists)
    requires ModuleOf(modules, app).Some? ==> Covers(ModuleOf(modules, app).value, now.s, now.t)
    ensures Loaded(modules, app, now.s, now.t)
  {
  }

  lemma ExtendShrinks(s: set<string>, xs: seq<string>, declared: seq<string>)
    requires Names(declared) <= s
    ensures var more := Subtract(declared, xs);
            && Names(more) <= s && Names(xs + more) == Names(xs) + Names(more) && Names(declared) <= Names(xs + more)
            && (if more == [] then xs + more == xs else |s - Names(xs + more)| < |s - Names(xs)|)
  {
    var more := Subtract(declared, xs);
    forall x ensures x in more <==> x in declared && x !in xs { SubtractMember(declared, xs, x); }
    hide Subtract;
    NamesConcat(xs, more);
    if more == [] {
      assert xs + more == xs;
    } else {
      assert more[0] in s - Names(xs) && more[0] !in s - Names(xs + more);
      SubsetSize(s - Names(xs + more), (s - Names(xs)) - {more[0]});
    }
  }

  // ---------------------------------------------------------------------------
  // Deduplication
  // ---------------------------------------------------------------------------

  ghost predicate Unique<T>(xs: seq<T>) { forall i, j :: 0 <= i < j < |xs| ==> xs[i] != xs[j] }

  /** `list(OrderedDict.fromkeys(xs))`: the first occurrence of every name, in order. */
  function Dedupe<T(==)>(xs: seq<T>): seq<T>
  {
    if xs == [] then [] else
    var init, last := Dedupe(xs[..|xs| - 1]), xs[|xs| - 1];
    if last in init then init else init + [last]
  }

  lemma {:induction false} SameNames<T>(xs: seq<T>)
    ensures forall x :: x in Dedupe(xs) <==> x in xs
    ensures Names(Dedupe(xs)) == Names(xs)
  {
    if xs != [] {
      var init, last := xs[..|xs| - 1], xs[|xs| - 1];
      SameNames(init);
      assert xs == init + [last];
      assert forall x :: x in Dedupe(xs) <==> x in xs;
    }
    SameElements(Dedupe(xs), xs);
  }

  lemma SameElements<T>(xs: seq<T>, ys: seq<T>)
    requires forall x :: x in xs <==> x in ys
    ensures Names(xs) == Names(ys)
  {
    forall x ensures x in Names(xs) <==> x in Names(ys) { assert x in xs <==> x in ys; }
  }

  lemma {:induction false} DedupeUnique<T>(xs: seq<T>)
    ensures Unique(Dedupe(xs))
  {
    if xs != [] { DedupeUnique(xs[..|xs| - 1]); }
  }

  lemma {:induction false} DedupeAbsorbs<T>(xs: seq<T>, ys: seq<T>)
    requires Names(ys) <= Names(xs)
    ensures Dedupe(xs + ys) == Dedupe(xs)
  {
    if ys == [] {
      assert xs + ys == xs;
    } else {
      var init := ys[..|ys| - 1];
      assert Names(init) <= Names(ys);
      DedupeAbsorbs(xs, init);
      assert (xs + ys)[..|xs + ys| - 1] == xs + init;
      assert ys[|ys| - 1] in Names(xs);
      SameNames(xs);
    }
  }

  lemma {:induction false} SubtractLast<T>(a: seq<T>, x: T, b: seq<T>)
    ensures Subtract(a + [x], b) == Subtract(a, b) + (if x in b then [] else [x])
  {
    if a != [] {
      SubtractLast(a[1..], x, b);
      assert (a + [x])[1..] == a[1..] + [x];
    }
  }

  lemma DedupeLast<T>(xs: seq<T>, x: T)
    ensures Dedupe(xs + [x]) == if x in xs then Dedupe(xs) else Dedupe(xs) + [x]
  {
    assert (xs + [x])[..|xs|] == xs;
    SameNames(xs);
  }

  lemma DedupeSplitsOnce<T>(xs: seq<T>, ys: seq<T>, y: T)
    requires Dedupe(xs + ys) == Dedupe(xs) + Dedupe(Subtract(ys, xs))
    ensures Dedupe(xs + ys + [y]) == Dedupe(xs) + Dedupe(Subtract(ys + [y], xs))
  {
    hide Dedupe, Subtract;
    var rest, all := Subtract(ys, xs), xs + ys;
    SubtractLast(ys, y, xs);
    SubtractMember(ys, xs, y);
    DedupeLast(all, y);
    DedupeLast(rest, y);
    assert y in all <==> y in xs || y in ys;
    if y in xs {
      assert rest + [] == rest;
    } else if y !in ys {
      assert Dedupe(xs) + Dedupe(rest) + [y] == Dedupe(xs) + (Dedupe(rest) + [y]);
    }
  }

  lemma NothingLeft<T>(a: seq<T>, b: seq<T>)
    requires a == []
    ensures Dedupe(Subtract(a, b)) == []
  {
  }

  /** The first occurrence of every name survives, in order: names that were there before come first. */
  lemma {:induction false} DedupeSplits<T>(xs: seq<T>, ys: seq<T>)
    ensures Dedupe(xs + ys) == Dedupe(xs) + Dedupe(Subtract(ys, xs))
  {
    hide Dedupe, Subtract;
    if ys == [] {
      assert xs + ys == xs && Dedupe(xs) + [] == Dedupe(xs);
      NothingLeft(ys, xs);
    } else {
      var init, last := ys[..|ys| - 1], ys[|ys| - 1];
      DedupeSplits(xs, init);
      DedupeSplitsOnce(xs, init, last);
      assert ys == init + [last] && xs + ys == xs + init + [last];
    }
  }

  lemma {:induction false} DedupeFixed<T>(xs: seq<T>)
    requires Unique(xs)
    ensures Dedupe(xs) == xs
  {
    if xs != [] {
      var init := xs[..|xs| - 1];
      DedupeFixed(init);
      assert xs == init + [xs[|xs| - 1]];
    }
  }

  /**
   The shared apps come first, the starting ones in front and in order, then the apps that only tenants
   have, in the order of TENANT_APPS.
   */
  ghost predicate SharedFirst(setup: Setup, shared: seq<string>, tenant: seq<string>, k: nat)
  {
    && k <= |shared| && Names(shared[..k]) == setup.Closure(Shared) && Dedupe(setup.shared) <= shared[..k]
    && shared[k..] == Dedupe(Subtract(tenant, shared[..k]))
  }

  /**
   The whole of settings loading.  The result does not depend on the order in which sets of apps are
   visited: each list holds exactly the derivable apps.
   */
  method LoadAll(setup: Setup) returns (shared: seq<string>, tenant: seq<string>, installed: seq<string>)
    ensures Names(tenant) == setup.Closure(Tenant)
    ensures Names(shared) == Names(installed) == setup.Closure(Shared) + setup.Closure(Tenant)
    ensures Unique(installed) && installed == shared
    ensures setup.tenant <= tenant && exists k :: SharedFirst(setup, shared, tenant, k)
  {
    hide Loaded, Grew, Closed, Names;
    var loader := new Loader(setup.modules, setup.shared, setup.tenant);
    ghost var top := Lists(setup.Closure(Shared), setup.Closure(Tenant));
    setup.ClosureIsClosed();
    StartsInside(setup);
    ghost var start := loader.Now();
    NamesConcat(setup.shared, setup.tenant);
    loader.FilterAndUpdate(loader.shared + loader.tenant, top);
    ghost var first := loader.Now();
    AllLoaded(setup.modules, setup.shared + setup.tenant, start, first);
    loader.UpdateSettings(setup.user, top);
    StillClosed(setup.modules, first, loader.Now());
    GrewContains(setup.modules, start, first);
    GrewContains(setup.modules, first, loader.Now());
    setup.ClosureIsLeast(loader.Now().s, loader.Now().t);
    tenant := loader.tenant;
    NamesConcat(loader.shared, tenant);
    shared := Dedupe(loader.shared + tenant);
    SameNames(loader.shared + tenant);
    DedupeUnique(loader.shared + tenant);
    installed := Dedupe(shared + tenant);
    DedupeAbsorbs(shared, tenant);
    DedupeFixed(shared);
    FirstPart(setup, loader.shared, tenant, shared);
  }

  lemma FirstPart(setup: Setup, all: seq<string>, tenant: seq<string>, shared: seq<string>)
    requires setup.shared <= all && Names(all) == setup.Closure(Shared) && shared == Dedupe(all + tenant)
    ensures SharedFirst(setup, shared, tenant, |Dedupe(all)|)
  {
    hide Setup.Closure, Dedupe, Subtract;
    DedupeSplits(all, tenant);
    assert all == setup.shared + all[|setup.shared|..];
    DedupeSplits(setup.shared, all[|setup.shared|..]);
    SameNames(all);
    SubtractSame(tenant, all, Dedupe(all));
    assert shared[..|Dedupe(all)|] == Dedupe(all);
  }

  lemma {:induction false} SubtractSame<T>(a: seq<T>, b: seq<T>, c: seq<T>)
    requires forall x :: x in b <==> x in c
    ensures Subtract(a, b) == Subtract(a, c)
  {
    if a != [] { SubtractSame(a[1..], b, c); }
  }

  lemma AllLoaded(modules: Modules, apps: seq<string>, a: Lists, b: Lists)
    requires Grew(modules, a, b) && Names(apps) == a.s + a.t
    requires forall app :: app in apps ==> Loaded(modules, app, b.s, b.t)
    ensures Closed(modules, b.s, b.t)
  {
    hide Loaded;
    forall app | app in b.s + b.t ensures Loaded(modules, app, b.s, b.t) {
      if app in a.s + a.t { assert app in Names(apps); }
    }
  }

  lemma StillClosed(modules: Modules, a: Lists, b: Lists)
    requires Grew(modules, a, b) && Closed(modules, a.s, a.t)
    ensures Closed(modules, b.s, b.t)
  {
    hide Loaded;
    forall app | app in b.s + b.t ensures Loaded(modules, app, b.s, b.t) {
      if app in a.s + a.t { LoadedStays(modules, app, a, b); }
    }
  }

  lemma StartsInside(setup: Setup)
    ensures Names(setup.shared) <= setup.Closure(Shared) && Names(setup.tenant) <= setup.Closure(Tenant)
    ensures setup.user.Some? ==> Covers(setup.user.value, setup.Closure(Shared), setup.Closure(Tenant))
  {
    forall kind: Kind, app | setup.Derived(kind, app, 0) ensures app in setup.Closure(kind) {
      setup.DerivedIsClosure(kind, app, 0);
    }
    forall app ensures app in setup.shared ==> setup.Derived(Shared, app, 0)
               ensures app in setup.tenant ==> setup.Derived(Tenant, app, 0)
    { }
    if setup.user.Some? {
      forall app | app in setup.user.value.shared ensures app in setup.Closure(Shared) {
        assert setup.Derived(Shared, app, 0);
      }
      forall app | app in setup.user.value.tenant ensures app in setup.Closure(Tenant) {
        assert setup.Derived(Tenant, app, 0);
      }
    }
  }
}
