/** From a subject's source to its exit: the link's plan and the ladder's rules together. */
module ExitPath {
  import opened Outcomes
  import opened Peers
  import opened Kernel
  import opened Subjects
  import opened Traffic
  import opened RuleLists
  import opened Links
  import opened Ladder
  import opened LadderRules

  /** With the live rung's link up and its routes untouched since, and the ladder's report and
      rules agreeing, everything a source sends that main would give its default leaves by
      that link's interface. */
  lemma LeavesByLiveExit(
      k: Kernel, link: Link, broken: set<Cmd>, now: Kernel, c: Config, l: Lad, p: Packet, i: nat)
    requires LinkError(link) == None && Apply(k, LinkUp(link).value, broken).ok && DefaultsOnly(k.net, link.table)
    requires now.net.routes == Apply(k, LinkUp(link).value, broken).kernel.net.routes
    requires Fits(c, l) && Agrees(c, l, now)
    requires l.st.active >= 0 && !OwnLive(c, l) && c.rungs[l.st.active].table == link.table
    requires FitsBelowMain(c.subject) && FromSource(c.subject, p, i) && Undecided(now.net, p, 0, c.subject.base)
    requires Contains(DEFAULT, p.dst)
    ensures
      var main := Best(OfTable(now.net, MAIN), p.dst);
      PacketFate(now.net, p) ==
        if main.Some? && main.value.dest.bits > 0 then Leaves(main.value.dev) else Leaves(link.dev)
  {
    DefaultThroughLink(k, link, broken, p.dst);
    AgreedTraffic(c, l, now, p, i);
  }

  // ---- a repeated Up that fails ----

  lemma {:induction false} NotByAll(rs: seq<Route>, dev: Iface)
    requires forall r :: r in rs ==> r.dev == dev
    ensures NotBy(rs, dev) == []
  {
    if rs != [] {
      NotByAll(rs[1..], dev);
    }
  }

  /** Up deletes the link first; if it then cannot add it, the link and its routes are gone. */
  lemma UpCutShort(k: Kernel, link: Link, broken: set<Cmd>)
    requires LinkError(link) == None && link.dev in k.net.links
    requires LinkDel(link.dev) !in broken && LinkAdd(link.dev) in broken
    ensures
      var a := Apply(k, LinkUp(link).value, broken);
      !a.ok && Exec(k, LinkDel(link.dev)) == Some(a.kernel)
  {
    var two := [Quiet(LinkDel(link.dev)), Do(LinkAdd(link.dev))];
    var rest := NetUp(link)[2..] + Onces(Adds(link));
    assert NetUp(link) == two + NetUp(link)[2..];
    assert LinkUp(link).value == two + rest;
    ApplyConcat(k, two, rest, broken);
    ApplyTwo(k, two[0], two[1], broken);
  }

  /** So a repeated Up that stops there leaves a live exit without a route: report and rules
      still agree, and what main would give its default meets the host's own rules. */
  lemma RepeatedUpLosesExit(k: Kernel, link: Link, broken: set<Cmd>, c: Config, l: Lad, p: Packet, i: nat)
    requires LinkError(link) == None && link.dev in k.net.links
    requires LinkDel(link.dev) !in broken && LinkAdd(link.dev) in broken
    requires forall r :: r in OfTable(k.net, link.table) ==> r.dev == link.dev
    requires Fits(c, l) && Agrees(c, l, k) && l.st.active >= 0 && !OwnLive(c, l) && c.rungs[l.st.active].table == link.table
    requires FitsBelowMain(c.subject) && FromSource(c.subject, p, i)
    requires
      var net := Apply(k, LinkUp(link).value, broken).kernel.net;
      Undecided(net, p, 0, c.subject.base) && !MainDecides(net, p)
    ensures
      var a := Apply(k, LinkUp(link).value, broken);
      && !a.ok && Agrees(c, l, a.kernel)
      && PacketFate(a.kernel.net, p) == FateFrom(a.kernel.net, p, c.subject.base + 2 * |c.subject.sources|)
  {
    UpCutShort(k, link, broken);
    NotByAll(OfTable(k.net, link.table), link.dev);
    AgreedTraffic(c, l, Apply(k, LinkUp(link).value, broken).kernel, p, i);
  }

  const LINK := Link("x0", "key", 51820, "peer", Some(51820), Some(Prefix(0, 32)), 100, [SOURCE])
  const THROUGH: Kernel :=
    Kernel(
      Net({"x0"}, WHOLE.net.rules[32766 := PolicyRule(From(DEFAULT), Lookup(MAIN))],
          map[100 := [Route(DEFAULT, "x0")], MAIN := [Route(DEFAULT, "eth0")]]),
      map[])
  const LIVE := Lad(IN_USE, true, [1], [0], [""])

  lemma ExitCarries(net: Net, p: Packet)
    requires net.rules == THROUGH.net.rules && Contains(SOURCE, p.src) && Contains(DEFAULT, p.dst)
    requires OfTable(net, MAIN) == [Route(DEFAULT, "eth0")]
    ensures FromSource(ONE_EXIT.subject, p, 0) && Undecided(net, p, 0, 1000) && !MainDecides(net, p)
  {
    assert OfTable(net, MAIN)[1..] == [];
  }

  /** What is left over goes by main. */
  lemma HostCarries(net: Net, p: Packet)
    requires net.rules == THROUGH.net.rules && Contains(DEFAULT, p.src) && Contains(DEFAULT, p.dst)
    requires OfTable(net, MAIN) == [Route(DEFAULT, "eth0")]
    ensures FateFrom(net, p, 1002) == Leaves("eth0")
  {
    FateSkips(net, p, 1002, 32766);
    assert OfTable(net, MAIN)[1..] == [];
    assert Best(OfTable(net, MAIN), p.dst) == Some(Route(DEFAULT, "eth0"));
  }

  const CUT: Kernel :=
    Kernel(Net({}, THROUGH.net.rules, map[100 := [], MAIN := [Route(DEFAULT, "eth0")]]), map[])

  lemma RoutesCut()
    ensures (map t | t in THROUGH.net.routes :: NotBy(THROUGH.net.routes[t], "x0")) == CUT.net.routes
  {
    var r := Route(DEFAULT, "eth0");
    assert [r][1..] == [] && NotBy([r], "x0") == [r];
    assert [Route(DEFAULT, "x0")][1..] == [] && NotBy([Route(DEFAULT, "x0")], "x0") == [];
  }

  lemma LinkIsSound()
    ensures LinkError(LINK) == None
  {
  }

  lemma ThroughCutShort()
    ensures LinkError(LINK) == None && Apply(THROUGH, LinkUp(LINK).value, {LinkAdd("x0")}) == Applied(CUT, false)
  {
    LinkIsSound();
    UpCutShort(THROUGH, LINK, {LinkAdd("x0")});
    RoutesCut();
  }

  lemma ThroughAgrees()
    ensures Agrees(ONE_EXIT, LIVE, THROUGH) && Agrees(ONE_EXIT, LIVE, CUT)
  {
    forall q | InBlock(ONE_EXIT.subject, 1, q)
      ensures q in THROUGH.net.rules && THROUGH.net.rules[q] == RuleOf(ONE_EXIT.subject, Lookup(100), q)
    {
      assert q == 1000 || q == 1001;
    }
  }

  /** A source's packet leaves by the exit; after an Up that stopped at its second step it
      leaves by the host's uplink, with the exit still reported live. */
  lemma LeaksAfterRepeatedUp(p: Packet)
    requires Contains(SOURCE, p.src) && Contains(DEFAULT, p.src) && Contains(DEFAULT, p.dst)
    ensures LinkError(LINK) == None
    ensures Agrees(ONE_EXIT, LIVE, THROUGH) && PacketFate(THROUGH.net, p) == Leaves("x0")
    ensures
      var a := Apply(THROUGH, LinkUp(LINK).value, {LinkAdd("x0")});
      !a.ok && Agrees(ONE_EXIT, LIVE, a.kernel) && PacketFate(a.kernel.net, p) == Leaves("eth0")
  {
    ThroughAgrees();
    ThroughCutShort();
    ExitCarries(THROUGH.net, p);
    assert OfTable(THROUGH.net, 100)[1..] == [];
    AgreedTraffic(ONE_EXIT, LIVE, THROUGH, p, 0);
    ExitCarries(CUT.net, p);
    AgreedTraffic(ONE_EXIT, LIVE, CUT, p, 0);
    HostCarries(CUT.net, p);
  }
}
