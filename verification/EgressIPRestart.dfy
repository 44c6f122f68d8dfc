/** A restart of the egress IP allocator: it starts with no allocations, and the statuses that the start-up pass keeps
    are not entered into it. */
module EgressIPRestart {
  import opened Wrappers
  import opened Cidr
  import opened EgressIPSpec
  import opened EgressIPRuns
  import opened EgressIPReassign
  import opened EgressIPStartup

  /** The nodes are set up again, the objects keep their statuses. */
  ghost function Restarted(s: State): State {
    s.(alloc := map n | n in s.alloc :: s.alloc[n].(allocations := {}))
  }

  /** The invariant survives a restart if and only if no object carries an address. */
  lemma {:induction false} RestartKeepsInvIff(s: State)
    requires Inv(s)
    ensures Inv(Restarted(s)) <==> forall o | o in s.objects :: s.objects[o].items == []
  {
    var t := Restarted(s);
    assert forall o, it :: Holds(t, o, it) <==> Holds(s, o, it);
    if o :| o in s.objects && s.objects[o].items != [] {
      var it := s.objects[o].items[0];
      assert Holds(s, o, it) && Holds(t, o, it);
      assert it.ip !in t.alloc[it.node].allocations;
    }
  }

  lemma {:induction false} SecondIsValid(ip: IP)
    ensures ValidStatus(Twins(ip), [StatusEntry(Some(ip), "right")])
  {
    var entries := [StatusEntry(Some(ip), "right")];
    TwinsHost(ip, ip, "right");
    assert EntryHolds(Twins(ip), entries[0]);
  }

  lemma {:induction false} FirstIsChosen(ip: IP)
    ensures Assign(Twins(ip), ["left", "right"], [Some(ip)]).items == [Item(ip, "left")]
  {
    var req: Request := [Some(ip)];
    assert req[..1] == req && req[..0] == [] && req[0] == Some(ip);
    TwinsPrefix(req, ip, 1);
    TwinsFit(ip, [], ip);
    assert Assign(Twins(ip), ["left", "right"], req[..0]).items == [];
    assert |Assign(Twins(ip), ["left", "right"], req).items| <= 1;
  }

  /** A new object "f" that asks for the address gets it on the first node, while "e" has it on the second. */
  ghost predicate SharesNext(s: State, ip: IP) {
    var step := AddObject("f", [Some(ip)], ["left", "right"]);
    && Enabled(s, step)
    && Holds(Apply(s, step), "e", Item(ip, "right")) && Holds(Apply(s, step), "f", Item(ip, "left"))
  }

  lemma {:induction false} SecondShares(s: State, ip: IP)
    requires s.alloc == Twins(ip) && s.objects.Keys == {"e"} && s.objects["e"].items == [Item(ip, "right")]
    ensures SharesNext(s, ip)
  {
    var step := AddObject("f", [Some(ip)], ["left", "right"]);
    FirstIsChosen(ip);
    TwinsReady(ip);
    assert "e"[0] != "f"[0];
    var t := Apply(s, step);
    assert t.objects["f"].items[0] == Item(ip, "left") && t.objects["e"].items[0] == Item(ip, "right");
  }

  /** An object carries an address on one node, and its status is valid, so the start-up pass keeps it; after the
      restart a new object that asks for the address gets it on another node. */
  lemma {:induction false} RestartSharesAddress(ip: IP)
    ensures exists s: State ::
      Inv(s) && ValidStatus(Restarted(s).alloc, [StatusEntry(Some(ip), "right")]) && SharesNext(Restarted(s), ip)
  {
    var s := OnSecond(ip);
    OnSecondIsSound(ip);
    SecondIsValid(ip);
    assert Restarted(s).alloc == Twins(ip);
    SecondShares(Restarted(s), ip);
  }
}
