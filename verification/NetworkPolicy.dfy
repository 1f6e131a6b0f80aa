/**
 The one network policy of a shared computer, from everyone's: the tightest of each field, whatever
 order the users come in.
 */
module NetworkPolicy {
  import opened Strings

  datatype Blocks = Blocks(apps: seq<string>, categories: seq<string>, customDomains: seq<string>)

  datatype Dns = Dns(blocklist: seq<string>, upstream: string, safeSearch: bool)

  datatype Lockdown = Lockdown(forceDns: bool, blockDoh: bool, blockDot: bool, blockTor: bool, blockVpn: bool)

  /**
   What of a user's policy the network uses: `managed` has screen time on, `focused` is inside their
   focus hours now, and `ports` stands for all that comes from the base alone.
   */
  datatype Policy = Policy(managed: bool, blocks: Blocks, focused: bool, focusSites: seq<string>,
                           dns: Dns, lockdown: Lockdown, ports: string)

  datatype Entry = Entry(name: string, policy: Policy)

  type Users = seq<Entry>

  ghost predicate DistinctNames(users: Users) {
    forall i, j :: 0 <= i < j < |users| ==> users[i].name != users[j].name
  }

  /** `a` is the better base: managed before unmanaged, then by name. */
  predicate Precedes(a: Entry, b: Entry) {
    if a.policy.managed != b.policy.managed then a.policy.managed else Before(a.name, b.name)
  }

  function Base(users: Users): Entry
    requires users != []
  {
    var last := users[|users| - 1];
    if |users| == 1 then last
    else
      var best := Base(users[..|users| - 1]);
      if Precedes(last, best) then last else best
  }

  /** How much a family resolver filters. */
  function Rank(upstream: string): nat {
    if upstream == "1.1.1.3" then 3 else if upstream == "1.1.1.2" then 2 else 1
  }

  function Upstream(users: Users, base: string): string {
    if users == [] then base
    else
      var best, u := Upstream(users[..|users| - 1], base), users[|users| - 1].policy.dns.upstream;
      if Rank(u) > Rank(best) then u else best
  }

  function All(users: Users, of: Policy -> seq<string>): seq<string> {
    if users == [] then [] else All(users[..|users| - 1], of) + of(users[|users| - 1].policy)
  }

  predicate Any(users: Users, of: Policy -> bool) {
    users != [] && (Any(users[..|users| - 1], of) || of(users[|users| - 1].policy))
  }

  function Apps(p: Policy): seq<string> { p.blocks.apps }

  function Categories(p: Policy): seq<string> { p.blocks.categories }

  /** Their own blocked domains, and inside their focus hours the sites they block for themselves. */
  function Domains(p: Policy): seq<string> {
    p.blocks.customDomains + if p.focused then p.focusSites else []
  }

  function Blocklist(p: Policy): seq<string> { p.dns.blocklist }

  predicate SafeSearch(p: Policy) { p.dns.safeSearch }

  predicate ForceDns(p: Policy) { p.lockdown.forceDns }

  predicate BlockDoh(p: Policy) { p.lockdown.blockDoh }

  predicate BlockDot(p: Policy) { p.lockdown.blockDot }

  predicate BlockTor(p: Policy) { p.lockdown.blockTor }

  predicate BlockVpn(p: Policy) { p.lockdown.blockVpn }

  function Gathered(users: Users): Blocks {
    Blocks(All(users, Apps), All(users, Categories), All(users, Domains))
  }

  function DnsOf(users: Users, base: Dns): Dns {
    Dns(base.blocklist + All(users, Blocklist), Upstream(users, base.upstream), base.safeSearch || Any(users, SafeSearch))
  }

  function LockdownOf(users: Users, base: Lockdown): Lockdown {
    Lockdown(base.forceDns || Any(users, ForceDns),
             base.blockDoh || Any(users, BlockDoh),
             base.blockDot || Any(users, BlockDot),
             base.blockTor || Any(users, BlockTor),
             base.blockVpn || Any(users, BlockVpn))
  }

  /** Every field the tightest, before what a block implies. */
  function Tightest(users: Users, none: Policy): Policy {
    var base := if users == [] then none else Base(users).policy;
    var blocks := Gathered(users);
    var dns := DnsOf(users, base.dns);
    base.(blocks := Blocks(Arranged(blocks.apps), Arranged(blocks.categories), Arranged(blocks.customDomains)),
          dns := dns.(blocklist := Arranged(dns.blocklist)),
          lockdown := LockdownOf(users, base.lockdown))
  }

  predicate HasBlocks(p: Policy) {
    p.blocks != Blocks([], [], []) || p.dns.blocklist != []
  }

  /** What is blocked must not be reachable round the resolver. */
  function Closed(p: Policy, relaxed: bool): Policy {
    if HasBlocks(p) && !relaxed then
      p.(lockdown := p.lockdown.(forceDns := true, blockDoh := true, blockDot := true))
    else p
  }

  function Effective(users: Users, none: Policy, relaxed: bool): Policy {
    Closed(Tightest(users, none), relaxed)
  }

  method BestBase(users: Users, none: Policy) returns (base: Policy)
    ensures base == if users == [] then none else Base(users).policy
  {
    if users == [] {
      return none;
    }
    var best := users[0];
    assert users[..1][0] == users[0];
    for i := 1 to |users|
      invariant best == Base(users[..i])
    {
      assert users[..i + 1][..i] == users[..i];
      if Precedes(users[i], best) {
        best := users[i];
      }
    }
    assert users[..|users|] == users;
    base := best.policy;
  }

  lemma GatheredMore(users: Users, e: Entry)
    ensures var (b, p) := (Gathered(users), e.policy);
      Gathered(users + [e]) ==
      Blocks(b.apps + Apps(p), b.categories + Categories(p), b.customDomains + Domains(p))
  {
    assert (users + [e])[..|users|] == users;
  }

  lemma Regroup(a: seq<string>, b: seq<string>, c: seq<string>)
    ensures (a + b) + c == a + (b + c)
  {
  }

  lemma DnsOfMore(users: Users, e: Entry, base: Dns)
    ensures var (d, p) := (DnsOf(users, base), e.policy);
      DnsOf(users + [e], base) ==
      Dns(d.blocklist + Blocklist(p), if Rank(p.dns.upstream) > Rank(d.upstream) then p.dns.upstream else d.upstream,
          d.safeSearch || SafeSearch(p))
  {
    assert (users + [e])[..|users|] == users;
    Regroup(base.blocklist, All(users, Blocklist), Blocklist(e.policy));
  }

  lemma LockdownOfMore(users: Users, e: Entry, base: Lockdown)
    ensures var (l, p) := (LockdownOf(users, base), e.policy);
      LockdownOf(users + [e], base) ==
      Lockdown(l.forceDns || ForceDns(p), l.blockDoh || BlockDoh(p), l.blockDot || BlockDot(p),
               l.blockTor || BlockTor(p), l.blockVpn || BlockVpn(p))
  {
    assert (users + [e])[..|users|] == users;
  }

  /** One walk over the users: everyone's blocks, and the resolver's and the lockdown's fields made tightest. */
  method Gather(users: Users, base: Policy) returns (blocks: Blocks, dns: Dns, lockdown: Lockdown)
    ensures blocks == Gathered(users)
    ensures dns == DnsOf(users, base.dns)
    ensures lockdown == LockdownOf(users, base.lockdown)
  {
    blocks, dns, lockdown := Blocks([], [], []), base.dns, base.lockdown;
    for i := 0 to |users|
      invariant blocks == Gathered(users[..i])
      invariant dns == DnsOf(users[..i], base.dns)
      invariant lockdown == LockdownOf(users[..i], base.lockdown)
    {
      var p := users[i].policy;
      ghost var before := users[..i];
      assert users[..i + 1] == before + [users[i]];
      GatheredMore(before, users[i]);
      DnsOfMore(before, users[i], base.dns);
      LockdownOfMore(before, users[i], base.lockdown);
      blocks := Blocks(blocks.apps + Apps(p), blocks.categories + Categories(p), blocks.customDomains + Domains(p));
      dns := Dns(dns.blocklist + Blocklist(p),
                 if Rank(p.dns.upstream) > Rank(dns.upstream) then p.dns.upstream else dns.upstream,
                 dns.safeSearch || SafeSearch(p));
      lockdown := Lockdown(lockdown.forceDns || ForceDns(p), lockdown.blockDoh || BlockDoh(p),
                           lockdown.blockDot || BlockDot(p), lockdown.blockTor || BlockTor(p),
                           lockdown.blockVpn || BlockVpn(p));
    }
    assert users[..|users|] == users;
  }

  /** The policy applied to the computer; `none` is the empty policy, for a computer nobody has rules on. */
  method EffectiveNetworkPolicy(users: Users, none: Policy, relaxed: bool) returns (r: Policy)
    ensures r == Effective(users, none, relaxed)
  {
    var base := BestBase(users, none);
    var blocks, dns, lockdown := Gather(users, base);
    r := base.(blocks := Blocks(Arranged(blocks.apps), Arranged(blocks.categories), Arranged(blocks.customDomains)),
               dns := dns.(blocklist := Arranged(dns.blocklist)),
               lockdown := lockdown);
    if HasBlocks(r) && !relaxed {
      r := r.(lockdown := r.lockdown.(forceDns := true, blockDoh := true, blockDot := true));
    }
  }

  // ---- Each part, without the order ----

  lemma {:induction false} AllMeans(users: Users, of: Policy -> seq<string>, x: string)
    ensures x in All(users, of) <==> exists e <- users :: x in of(e.policy)
  {
    if users == [] {
    } else {
      var rest, last := users[..|users| - 1], users[|users| - 1];
      AllMeans(rest, of, x);
      assert users == rest + [last];
      if e :| e in rest && x in of(e.policy) {
        assert e in users;
      }
      assert last in users;
    }
  }

  lemma {:induction false} AnyMeans(users: Users, of: Policy -> bool)
    ensures Any(users, of) <==> exists e <- users :: of(e.policy)
  {
    if users == [] {
    } else {
      var rest, last := users[..|users| - 1], users[|users| - 1];
      AnyMeans(rest, of);
      assert users == rest + [last];
      if e :| e in rest && of(e.policy) {
        assert e in users;
      }
      assert last in users;
    }
  }

  lemma PrecedesIsStrictOrder(a: Entry, b: Entry, c: Entry)
    ensures !(Precedes(a, b) && Precedes(b, a))
    ensures a.name != b.name ==> Precedes(a, b) || Precedes(b, a)
    ensures Precedes(a, b) && Precedes(b, c) ==> Precedes(a, c)
  {
    BeforeIsStrict(a.name, b.name);
    BeforeIsTotal(a.name, b.name);
    if Before(a.name, b.name) && Before(b.name, c.name) {
      BeforeIsTransitive(a.name, b.name, c.name);
    }
  }

  /** The base is the user who precedes every other: managed first, then lowest name. */
  lemma {:induction false} BaseMeans(users: Users, e: Entry)
    requires users != [] && DistinctNames(users) && e in users
    ensures Base(users) in users && (e == Base(users) || Precedes(Base(users), e))
  {
    var last := users[|users| - 1];
    if |users| > 1 {
      var rest := users[..|users| - 1];
      var best := Base(rest);
      BaseMeans(rest, if e in rest then e else rest[0]);
      assert users == rest + [last];
      PrecedesIsStrictOrder(last, best, e);
    }
  }

  lemma {:induction false} UpstreamMeans(users: Users, base: string, e: Entry)
    ensures e in users ==> Rank(Upstream(users, base)) >= Rank(e.policy.dns.upstream)
    ensures Rank(Upstream(users, base)) >= Rank(base)
    ensures Upstream(users, base) != base ==> Rank(Upstream(users, base)) > Rank(base)
  {
    if users == [] {
    } else {
      UpstreamMeans(users[..|users| - 1], base, e);
      assert users == users[..|users| - 1] + [users[|users| - 1]];
    }
  }

  lemma {:induction false} UpstreamIsSomeones(users: Users, base: string) returns (e: Entry)
    ensures Upstream(users, base) == base || (e in users && e.policy.dns.upstream == Upstream(users, base))
  {
    if users == [] {
      e :| true;
    } else {
      e := UpstreamIsSomeones(users[..|users| - 1], base);
      var last := users[|users| - 1];
      assert users == users[..|users| - 1] + [last];
      if Upstream(users, base) == last.policy.dns.upstream {
        e := last;
      }
    }
  }

  // ---- The order of the users changes nothing ----

  /** The same users, in whatever order. */
  ghost predicate SameUsers(a: Users, b: Users) {
    DistinctNames(a) && DistinctNames(b) && forall e :: e in a <==> e in b
  }

  lemma AllArrangedAlike(a: Users, b: Users, of: Policy -> seq<string>, more: seq<string>)
    requires SameUsers(a, b)
    ensures Arranged(more + All(a, of)) == Arranged(more + All(b, of))
  {
    forall x
      ensures x in more + All(a, of) <==> x in more + All(b, of)
    {
      AllMeans(a, of, x);
      AllMeans(b, of, x);
    }
    ArrangedIgnoresOrder(more + All(a, of), more + All(b, of));
  }

  lemma AllAlike(a: Users, b: Users, of: Policy -> seq<string>)
    requires SameUsers(a, b)
    ensures Arranged(All(a, of)) == Arranged(All(b, of))
  {
    AllArrangedAlike(a, b, of, []);
    assert [] + All(a, of) == All(a, of) && [] + All(b, of) == All(b, of);
  }

  lemma AnyAlike(a: Users, b: Users, of: Policy -> bool)
    requires SameUsers(a, b)
    ensures Any(a, of) == Any(b, of)
  {
    AnyMeans(a, of);
    AnyMeans(b, of);
  }

  lemma BaseAlike(a: Users, b: Users)
    requires SameUsers(a, b) && a != [] && b != []
    ensures Base(a) == Base(b)
  {
    BaseMeans(a, a[0]);
    BaseMeans(b, b[0]);
    BaseMeans(a, Base(b));
    BaseMeans(b, Base(a));
    PrecedesIsStrictOrder(Base(a), Base(b), Base(a));
  }

  lemma UpstreamNotBelow(a: Users, b: Users, base: string)
    requires SameUsers(a, b)
    ensures Rank(Upstream(a, base)) <= Rank(Upstream(b, base))
  {
    var e := UpstreamIsSomeones(a, base);
    UpstreamMeans(b, base, e);
  }

  /** Only ranks 2 and 3 can displace the base's upstream, and each is one resolver. */
  lemma UpstreamAlike(a: Users, b: Users, base: string)
    requires SameUsers(a, b)
    ensures Upstream(a, base) == Upstream(b, base)
  {
    UpstreamNotBelow(a, b, base);
    UpstreamNotBelow(b, a, base);
    var e: Entry :| true;
    UpstreamMeans(a, base, e);
    UpstreamMeans(b, base, e);
  }

  lemma FirstIsIn(users: Users)
    requires users != []
    ensures users[0] in users
  {
  }

  lemma SameEmpty(a: Users, b: Users)
    requires SameUsers(a, b) && a == []
    ensures b == []
  {
    if b != [] {
      FirstIsIn(b);
      assert false;
    }
  }

  lemma DnsAlike(a: Users, b: Users, base: Dns)
    requires SameUsers(a, b)
    ensures DnsOf(a, base).(blocklist := Arranged(DnsOf(a, base).blocklist))
         == DnsOf(b, base).(blocklist := Arranged(DnsOf(b, base).blocklist))
  {
    AllArrangedAlike(a, b, Blocklist, base.blocklist);
    UpstreamAlike(a, b, base.upstream);
    AnyAlike(a, b, SafeSearch);
  }

  lemma LockdownAlike(a: Users, b: Users, base: Lockdown)
    requires SameUsers(a, b)
    ensures LockdownOf(a, base) == LockdownOf(b, base)
  {
    AnyAlike(a, b, ForceDns);
    AnyAlike(a, b, BlockDoh);
    AnyAlike(a, b, BlockDot);
    AnyAlike(a, b, BlockTor);
    AnyAlike(a, b, BlockVpn);
  }

  /** The policy of the computer is the same for every order in which its users are walked. */
  lemma OrderDoesNotMatter(a: Users, b: Users, none: Policy, relaxed: bool)
    requires SameUsers(a, b)
    ensures Effective(a, none, relaxed) == Effective(b, none, relaxed)
  {
    if a == [] {
      SameEmpty(a, b);
    } else if b == [] {
      SameEmpty(b, a);
    } else {
      BaseAlike(a, b);
      AllAlike(a, b, Apps);
      AllAlike(a, b, Categories);
      AllAlike(a, b, Domains);
      DnsAlike(a, b, Base(a).policy.dns);
      LockdownAlike(a, b, Base(a).policy.lockdown);
    }
  }

  // ---- What it is ----

  lemma UnionOf(users: Users, of: Policy -> seq<string>, x: string)
    ensures Ordered(Arranged(All(users, of)))
    ensures x in Arranged(All(users, of)) <==> exists e <- users :: x in of(e.policy)
  {
    ArrangedMeans(All(users, of));
    AllMeans(users, of, x);
  }

  /** Blocks are the sorted, duplicate-free union of everyone's, with the focus sites of those in focus. */
  lemma BlocksAreUnion(users: Users, none: Policy, relaxed: bool, x: string)
    requires users != [] && DistinctNames(users)
    ensures var b := Effective(users, none, relaxed).blocks;
      && Ordered(b.apps) && (x in b.apps <==> exists e <- users :: x in e.policy.blocks.apps)
      && Ordered(b.categories) && (x in b.categories <==> exists e <- users :: x in e.policy.blocks.categories)
      && Ordered(b.customDomains)
      && (x in b.customDomains <==>
            exists e <- users :: x in e.policy.blocks.customDomains || (e.policy.focused && x in e.policy.focusSites))
  {
    UnionOf(users, Apps, x);
    UnionOf(users, Categories, x);
    UnionOf(users, Domains, x);
  }

  /** So is the resolver's blocklist, the base's own counted once. */
  lemma BlocklistIsUnion(users: Users, none: Policy, relaxed: bool, x: string)
    requires users != [] && DistinctNames(users)
    ensures var r := Effective(users, none, relaxed);
      Ordered(r.dns.blocklist) && (x in r.dns.blocklist <==> exists e <- users :: x in e.policy.dns.blocklist)
  {
    ArrangedMeans(Base(users).policy.dns.blocklist + All(users, Blocklist));
    AllMeans(users, Blocklist, x);
    BaseMeans(users, users[0]);
  }

  lemma AnyWithBase(users: Users, of: Policy -> bool)
    requires users != [] && DistinctNames(users)
    ensures of(Base(users).policy) || Any(users, of) <==> exists e <- users :: of(e.policy)
  {
    AnyMeans(users, of);
    BaseMeans(users, users[0]);
  }

  lemma LockdownMeans(users: Users)
    requires users != [] && DistinctNames(users)
    ensures var l := LockdownOf(users, Base(users).policy.lockdown);
      && (l.forceDns <==> exists e <- users :: e.policy.lockdown.forceDns)
      && (l.blockDoh <==> exists e <- users :: e.policy.lockdown.blockDoh)
      && (l.blockDot <==> exists e <- users :: e.policy.lockdown.blockDot)
      && (l.blockTor <==> exists e <- users :: e.policy.lockdown.blockTor)
      && (l.blockVpn <==> exists e <- users :: e.policy.lockdown.blockVpn)
  {
    AnyWithBase(users, ForceDns);
    AnyWithBase(users, BlockDoh);
    AnyWithBase(users, BlockDot);
    AnyWithBase(users, BlockTor);
    AnyWithBase(users, BlockVpn);
  }

  lemma TightestLockdown(users: Users, none: Policy)
    requires users != []
    ensures var t := Tightest(users, none);
      t.lockdown == LockdownOf(users, Base(users).policy.lockdown)
      && t.dns.safeSearch == (Base(users).policy.dns.safeSearch || Any(users, SafeSearch))
  {
  }

  lemma ClosedLockdown(p: Policy, relaxed: bool)
    ensures var (r, l) := (Closed(p, relaxed), Closed(p, relaxed).lockdown);
      var closed := HasBlocks(p) && !relaxed;
      && r.blocks == p.blocks && r.dns == p.dns
      && l == Lockdown(closed || p.lockdown.forceDns, closed || p.lockdown.blockDoh, closed || p.lockdown.blockDot,
                       p.lockdown.blockTor, p.lockdown.blockVpn)
  {
  }

  /** `p` blocks something: an app, a category, a domain, a site of focus hours it is in, a name at the resolver. */
  predicate BlocksAny(p: Policy) {
    || p.blocks.apps != [] || p.blocks.categories != [] || p.blocks.customDomains != []
    || (p.focused && p.focusSites != []) || p.dns.blocklist != []
  }

  lemma HasBlocksIff(users: Users, none: Policy)
    requires users != [] && DistinctNames(users)
    ensures HasBlocks(Tightest(users, none)) <==> exists e <- users :: BlocksAny(e.policy)
  {
    var t := Tightest(users, none);
    assert t == Effective(users, none, true);
    if HasBlocks(t) {
      var x := if t.blocks.apps != [] then t.blocks.apps[0]
               else if t.blocks.categories != [] then t.blocks.categories[0]
               else if t.blocks.customDomains != [] then t.blocks.customDomains[0]
               else t.dns.blocklist[0];
      BlocksAreUnion(users, none, true, x);
      BlocklistIsUnion(users, none, true, x);
    }
    if e :| e in users && BlocksAny(e.policy) {
      var p := e.policy;
      var x := if p.blocks.apps != [] then p.blocks.apps[0]
               else if p.blocks.categories != [] then p.blocks.categories[0]
               else if p.blocks.customDomains != [] then p.blocks.customDomains[0]
               else if p.focused && p.focusSites != [] then p.focusSites[0]
               else p.dns.blocklist[0];
      BlocksAreUnion(users, none, true, x);
      BlocklistIsUnion(users, none, true, x);
    }
  }

  /** A flag is on exactly when some user needs it, or, for the three that close the ways round DNS, when some user blocks anything. */
  lemma FlagsAreTightest(users: Users, none: Policy, relaxed: bool)
    requires users != [] && DistinctNames(users)
    ensures var (r, l) := (Effective(users, none, relaxed), Effective(users, none, relaxed).lockdown);
      var closed := !relaxed && exists e <- users :: BlocksAny(e.policy);
      && (r.dns.safeSearch <==> exists e <- users :: e.policy.dns.safeSearch)
      && (l.forceDns <==> closed || exists e <- users :: e.policy.lockdown.forceDns)
      && (l.blockDoh <==> closed || exists e <- users :: e.policy.lockdown.blockDoh)
      && (l.blockDot <==> closed || exists e <- users :: e.policy.lockdown.blockDot)
      && (l.blockTor <==> exists e <- users :: e.policy.lockdown.blockTor)
      && (l.blockVpn <==> exists e <- users :: e.policy.lockdown.blockVpn)
  {
    AnyWithBase(users, SafeSearch);
    LockdownMeans(users);
    TightestLockdown(users, none);
    ClosedLockdown(Tightest(users, none), relaxed);
    HasBlocksIff(users, none);
  }

  /** The resolver that filters adult sites if anyone has it, else the one that filters malware if anyone has that, else the base's. */
  lemma UpstreamFiltersMost(users: Users, none: Policy, relaxed: bool)
    requires users != [] && DistinctNames(users)
    ensures var r := Effective(users, none, relaxed);
      && (r.dns.upstream == "1.1.1.3" <==> exists e <- users :: e.policy.dns.upstream == "1.1.1.3")
      && (r.dns.upstream == "1.1.1.2" <==>
            && (exists e <- users :: e.policy.dns.upstream == "1.1.1.2")
            && forall e <- users :: e.policy.dns.upstream != "1.1.1.3")
      && (r.dns.upstream != "1.1.1.3" && r.dns.upstream != "1.1.1.2" ==> r.dns.upstream == Base(users).policy.dns.upstream)
  {
    var base := Base(users).policy.dns.upstream;
    forall e | e in users
      ensures Rank(Upstream(users, base)) >= Rank(e.policy.dns.upstream)
    {
      UpstreamMeans(users, base, e);
    }
    UpstreamMeans(users, base, users[0]);
    BaseMeans(users, users[0]);
    var someone := UpstreamIsSomeones(users, base);
  }

  /** All else is the base's: the user with screen time on who is lowest by name, or the lowest by name if nobody has. */
  lemma RestIsTheBases(users: Users, none: Policy, relaxed: bool, e: Entry)
    requires DistinctNames(users) && e in users
    ensures var (r, base) := (Effective(users, none, relaxed), Base(users));
      && base in users && r == base.policy.(blocks := r.blocks, dns := r.dns, lockdown := r.lockdown)
      && (e == base || (base.policy.managed && !e.policy.managed)
          || (base.policy.managed == e.policy.managed && Before(base.name, e.name)))
  {
    BaseMeans(users, e);
  }

  /** With nobody here, and nothing in the empty policy, that is what applies. */
  lemma NobodyHere(none: Policy, relaxed: bool)
    requires none.blocks == Blocks([], [], []) && none.dns.blocklist == []
    ensures Effective([], none, relaxed) == none
  {
  }
}
