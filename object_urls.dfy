/** The registry of object urls created for photo previews: a module-level
    set of tracked urls, iterated in insertion order as JavaScript sets are,
    and the `URL.revokeObjectURL` calls it issues. */
module ObjectUrls {
  import opened Photos

  /** The tracked urls, and every url passed to `URL.revokeObjectURL` so far. */
  datatype Registry = Registry(tracked: seq<string>, revoked: seq<string>)

  /** `registerObjectUrl`: a set insertion. Afterwards exactly the old urls
      and the new one are tracked, and nothing is revoked. */
  function Register(r: Registry, url: string): (r': Registry)
    ensures forall u :: u in r'.tracked <==> u in r.tracked || u == url
    ensures r'.revoked == r.revoked
  {
    if url in r.tracked then r else r.(tracked := r.tracked + [url])
  }

  /** `revokeObjectUrl`; `browser` says whether `window` exists. In a
      browser the url is no longer tracked afterwards; at most one revoke is
      issued, and earlier ones are kept. */
  function Revoke(browser: bool, r: Registry, url: string): (r': Registry)
    ensures browser ==> url !in r'.tracked
    ensures forall u :: u in r'.tracked ==> u in r.tracked
    ensures r.revoked <= r'.revoked && |r'.revoked| <= |r.revoked| + 1
  {
    if !browser then r
    else if url in r.tracked then Registry(Without(r.tracked, url), r.revoked + [url])
    else r
  }

  /** `revokeObjectUrls`: `revokeObjectUrl` on each url in turn. The tracked
      set only shrinks, and at most one revoke is issued per listed url. */
  function RevokeAll(browser: bool, r: Registry, urls: seq<string>): (r': Registry)
    ensures forall u :: u in r'.tracked ==> u in r.tracked
    ensures r.revoked <= r'.revoked && |r'.revoked| <= |r.revoked| + |urls|
    decreases |urls|
  {
    if |urls| == 0 then r
    else Revoke(browser, RevokeAll(browser, r, urls[..|urls| - 1]), urls[|urls| - 1])
  }

  /** `clearObjectUrls`: in a browser every tracked url is revoked, in
      insertion order, before the set is emptied. */
  function Clear(browser: bool, r: Registry): (r': Registry)
    ensures r'.tracked == [] && r.revoked <= r'.revoked
  {
    if browser then Registry([], r.revoked + r.tracked) else Registry([], r.revoked)
  }

  /** Registering twice is registering once. */
  lemma RegisterIdempotent(r: Registry, url: string)
    ensures Register(Register(r, url), url) == Register(r, url)
  {
  }

  /** One revoke: nothing happens outside a browser or for an untracked url;
      a tracked url is revoked once and is no longer tracked. */
  lemma RevokeEffect(browser: bool, r: Registry, url: string)
    requires NoDuplicates(r.tracked)
    ensures var r' := Revoke(browser, r, url);
      if browser && url in r.tracked then
        r'.revoked == r.revoked + [url] && url !in r'.tracked
        && forall u :: u != url ==> (u in r'.tracked <==> u in r.tracked)
      else r' == r
  {
  }

  /** Outside a browser, revoking a list of urls changes nothing. */
  lemma {:induction false} RevokeAllOutsideBrowser(r: Registry, urls: seq<string>)
    ensures RevokeAll(false, r, urls) == r
    decreases |urls|
  {
    if |urls| > 0 {
      RevokeAllOutsideBrowser(r, urls[..|urls| - 1]);
    }
  }

  /** In a browser, revoking a list of urls stops tracking exactly those
      urls, and every url revoked on the way was tracked before. */
  lemma {:induction false} RevokeAllInBrowser(r: Registry, urls: seq<string>)
    ensures var r' := RevokeAll(true, r, urls);
      (forall u :: u in r'.tracked <==> u in r.tracked && u !in urls)
      && |r.revoked| <= |r'.revoked| && r'.revoked[..|r.revoked|] == r.revoked
      && forall m :: |r.revoked| <= m < |r'.revoked| ==> r'.revoked[m] in r.tracked && r'.revoked[m] in urls
    decreases |urls|
  {
    if |urls| > 0 {
      var front := urls[..|urls| - 1];
      var url := urls[|urls| - 1];
      RevokeAllInBrowser(r, front);
      var mid := RevokeAll(true, r, front);
      var r' := RevokeAll(true, r, urls);
      assert r' == Revoke(true, mid, url);
      assert forall u :: u in urls <==> u in front || u == url;
      if url in mid.tracked {
        assert r'.revoked == mid.revoked + [url];
        assert r'.revoked[..|mid.revoked|] == mid.revoked;
      }
    }
  }

  // ---- revoke calls are accounted for by registrations ----

  /** A duplicate-free list holds each of its elements exactly once. */
  lemma {:induction false} CountInSet(s: seq<string>, u: string)
    requires NoDuplicates(s)
    ensures multiset(s)[u] == if u in s then 1 else 0
    decreases |s|
  {
    if |s| > 0 {
      var front := s[..|s| - 1];
      assert s == front + [s[|s| - 1]];
      assert NoDuplicates(front);
      assert s[|s| - 1] !in front;
      CountInSet(front, u);
    }
  }

  /** The registry's invariant relative to the urls registered so far,
      repeats included: the set has no repeats, and a url has been revoked,
      plus once more if it is still tracked, at most as often as it was
      registered. */
  ghost predicate Accounted(r: Registry, registered: seq<string>) {
    NoDuplicates(r.tracked)
    && forall u :: multiset(r.revoked)[u] + (if u in r.tracked then 1 else 0) <= multiset(registered)[u]
  }

  lemma RegisterAccounted(r: Registry, registered: seq<string>, url: string)
    requires Accounted(r, registered)
    ensures Accounted(Register(r, url), registered + [url])
  {
    var r' := Register(r, url);
    if url !in r.tracked {
      AppendNoDuplicates(r.tracked, url);
    }
    forall u ensures multiset(r'.revoked)[u] + (if u in r'.tracked then 1 else 0) <= multiset(registered + [url])[u] {
      assert multiset(registered + [url]) == multiset(registered) + multiset{url};
    }
  }

  lemma RevokeAccounted(browser: bool, r: Registry, registered: seq<string>, url: string)
    requires Accounted(r, registered)
    ensures Accounted(Revoke(browser, r, url), registered)
  {
    if browser && url in r.tracked {
      WithoutNoDuplicates(r.tracked, url);
      var r' := Revoke(browser, r, url);
      forall u ensures multiset(r'.revoked)[u] + (if u in r'.tracked then 1 else 0) <= multiset(registered)[u] {
        assert multiset(r'.revoked) == multiset(r.revoked) + multiset{url};
      }
    }
  }

  lemma {:induction false} RevokeAllAccounted(browser: bool, r: Registry, registered: seq<string>, urls: seq<string>)
    requires Accounted(r, registered)
    ensures Accounted(RevokeAll(browser, r, urls), registered)
    decreases |urls|
  {
    if |urls| > 0 {
      RevokeAllAccounted(browser, r, registered, urls[..|urls| - 1]);
      RevokeAccounted(browser, RevokeAll(browser, r, urls[..|urls| - 1]), registered, urls[|urls| - 1]);
    }
  }

  lemma ClearAccounted(browser: bool, r: Registry, registered: seq<string>)
    requires Accounted(r, registered)
    ensures Accounted(Clear(browser, r), registered)
  {
    var r' := Clear(browser, r);
    forall u ensures multiset(r'.revoked)[u] <= multiset(registered)[u] {
      if browser {
        CountInSet(r.tracked, u);
        assert multiset(r'.revoked) == multiset(r.revoked) + multiset(r.tracked);
      }
    }
  }

  /** The registry operations, for replaying a session. */
  datatype Op =
    | RegisterUrl(url: string)
    | RevokeUrl(url: string)
    | RevokeUrls(urls: seq<string>)
    | ClearUrls

  function Apply(browser: bool, r: Registry, op: Op): Registry {
    match op
    case RegisterUrl(url) => Register(r, url)
    case RevokeUrl(url) => Revoke(browser, r, url)
    case RevokeUrls(urls) => RevokeAll(browser, r, urls)
    case ClearUrls => Clear(browser, r)
  }

  function Replay(browser: bool, r: Registry, ops: seq<Op>): Registry
    decreases |ops|
  {
    if |ops| == 0 then r else Apply(browser, Replay(browser, r, ops[..|ops| - 1]), ops[|ops| - 1])
  }

  /** The urls the replayed operations register, repeats included. */
  function Registrations(ops: seq<Op>): seq<string>
    decreases |ops|
  {
    if |ops| == 0 then []
    else Registrations(ops[..|ops| - 1]) + (if ops[|ops| - 1].RegisterUrl? then [ops[|ops| - 1].url] else [])
  }

  lemma {:induction false} ReplayAccounted(browser: bool, ops: seq<Op>)
    ensures Accounted(Replay(browser, Registry([], []), ops), Registrations(ops))
    decreases |ops|
  {
    if |ops| > 0 {
      var front := ops[..|ops| - 1];
      var op := ops[|ops| - 1];
      ReplayAccounted(browser, front);
      var r := Replay(browser, Registry([], []), front);
      var registered := Registrations(front);
      match op
      case RegisterUrl(url) => RegisterAccounted(r, registered, url);
      case RevokeUrl(url) =>
        RevokeAccounted(browser, r, registered, url);
        assert Registrations(ops) == registered + [];
      case RevokeUrls(urls) =>
        RevokeAllAccounted(browser, r, registered, urls);
        assert Registrations(ops) == registered + [];
      case ClearUrls =>
        ClearAccounted(browser, r, registered);
        assert Registrations(ops) == registered + [];
    }
  }

  /** Starting from the empty registry, a url is revoked at most as many
      times as it was registered; so a url registered once is revoked at
      most once. */
  lemma RevokedAtMostAsRegistered(browser: bool, ops: seq<Op>, url: string)
    ensures multiset(Replay(browser, Registry([], []), ops).revoked)[url] <= multiset(Registrations(ops))[url]
  {
    ReplayAccounted(browser, ops);
  }

  /** Outside a browser no revoke call is ever issued. */
  lemma {:induction false} NoRevokeOutsideBrowser(ops: seq<Op>)
    ensures Replay(false, Registry([], []), ops).revoked == []
    decreases |ops|
  {
    if |ops| > 0 {
      NoRevokeOutsideBrowser(ops[..|ops| - 1]);
      var r := Replay(false, Registry([], []), ops[..|ops| - 1]);
      if ops[|ops| - 1].RevokeUrls? {
        RevokeAllOutsideBrowser(r, ops[|ops| - 1].urls);
      }
    }
  }

  /** The module-level registry. */
  class ObjectUrlRegistry {
    /** Whether `window` exists. */
    const browser: bool
    var trackedObjectUrls: seq<string>
    /** The `URL.revokeObjectURL` calls issued so far. */
    var revokeCalls: seq<string>
    /** Every url ever registered, repeats included. */
    ghost var registered: seq<string>

    function State(): Registry
      reads this
    {
      Registry(trackedObjectUrls, revokeCalls)
    }

    ghost predicate Valid()
      reads this
    {
      Accounted(State(), registered)
    }

    constructor (browser: bool)
      ensures this.browser == browser && Valid()
      ensures State() == Registry([], []) && registered == []
    {
      this.browser := browser;
      trackedObjectUrls, revokeCalls := [], [];
      registered := [];
    }

    method RegisterObjectUrl(url: string)
      requires Valid()
      modifies this
      ensures Valid() && State() == Register(old(State()), url) && registered == old(registered) + [url]
    {
      RegisterAccounted(State(), registered, url);
      if url !in trackedObjectUrls {
        trackedObjectUrls := trackedObjectUrls + [url];
      }
      registered := registered + [url];
    }

    method RevokeObjectUrl(url: string)
      requires Valid()
      modifies this
      ensures Valid() && State() == Revoke(browser, old(State()), url) && registered == old(registered)
    {
      RevokeAccounted(browser, State(), registered, url);
      if !browser {
        return;
      }
      if url in trackedObjectUrls {
        revokeCalls := revokeCalls + [url];
        trackedObjectUrls := Without(trackedObjectUrls, url);
      }
    }

    method RevokeObjectUrls(urls: seq<string>)
      requires Valid()
      modifies this
      ensures Valid() && State() == RevokeAll(browser, old(State()), urls) && registered == old(registered)
    {
      var i := 0;
      while i < |urls|
        invariant 0 <= i <= |urls|
        invariant Valid() && registered == old(registered)
        invariant State() == RevokeAll(browser, old(State()), urls[..i])
      {
        assert urls[..i + 1][..i] == urls[..i];
        RevokeObjectUrl(urls[i]);
        i := i + 1;
      }
      assert urls[..i] == urls;
    }

    method ClearObjectUrls()
      requires Valid()
      modifies this
      ensures Valid() && State() == Clear(browser, old(State())) && registered == old(registered)
    {
      ClearAccounted(browser, State(), registered);
      ghost var target := Clear(browser, State());
      if !browser {
        trackedObjectUrls := [];
        return;
      }
      var i := 0;
      while i < |trackedObjectUrls|
        invariant 0 <= i <= |trackedObjectUrls| && trackedObjectUrls == old(trackedObjectUrls)
        invariant revokeCalls == old(revokeCalls) + trackedObjectUrls[..i] && registered == old(registered)
      {
        assert trackedObjectUrls[..i + 1] == trackedObjectUrls[..i] + [trackedObjectUrls[i]];
        revokeCalls := revokeCalls + [trackedObjectUrls[i]];
        i := i + 1;
      }
      assert trackedObjectUrls[..i] == trackedObjectUrls;
      trackedObjectUrls := [];
      assert State() == target;
    }
  }
}
