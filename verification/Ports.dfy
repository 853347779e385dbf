/** Finding the other port of a bypass pair in the device array. */
module Ports {
  import opened Options

  /** The fields of bpctl_dev_t that name a port. The 10G9 has an addressing of its own (bus_p, slot_p, func_p). */
  datatype Entry = Entry(present: bool, tenGig9: bool,
                         bus: nat, slot: nat, func: nat, busP: nat, slotP: nat, funcP: nat)

  datatype Address = Address(bus: nat, slot: nat, func: nat)

  /** The address of `e` in the addressing of a 10G9 or of the others. */
  function AddressOf(tenGig9: bool, e: Entry): Address {
    if tenGig9 then Address(e.busP, e.slotP, e.funcP) else Address(e.bus, e.slot, e.func)
  }

  /** is_bypass_fn: the controlling port of a pair. */
  predicate IsBypass(e: Entry) {
    var func := AddressOf(e.tenGig9, e).func;
    func == 0 || (!e.tenGig9 && func == 2)
  }

  predicate IsSlave(e: Entry) {
    var func := AddressOf(e.tenGig9, e).func;
    func == 1 || (!e.tenGig9 && func == 3)
  }

  /** What a port looks for: the next function of the same slot, or the previous one. */
  function Wanted(me: Entry, up: bool): Option<Address> {
    var a := AddressOf(me.tenGig9, me);
    if up then (if IsBypass(me) then Some(a.(func := a.func + 1)) else None)
    else (if IsSlave(me) then Some(a.(func := a.func - 1)) else None)
  }

  /** The searches stop at the first empty entry. */
  predicate Searched(devs: seq<Entry>, i: nat) {
    i < |devs| && forall j | 0 <= j <= i :: devs[j].present
  }

  ghost predicate FirstAt(devs: seq<Entry>, tenGig9: bool, a: Address, i: nat) {
    && Searched(devs, i) && AddressOf(tenGig9, devs[i]) == a
    && forall j | 0 <= j < i :: AddressOf(tenGig9, devs[j]) != a
  }

  /** `r` is the first searched entry `me` looks for, if there is one. */
  ghost predicate Finds(devs: seq<Entry>, me: Entry, up: bool, r: Option<nat>) {
    match Wanted(me, up)
    case None => r == None
    case Some(a) =>
      if r.Some? then FirstAt(devs, me.tenGig9, a, r.value)
      else forall i | 0 <= i < |devs| && Searched(devs, i) :: AddressOf(me.tenGig9, devs[i]) != a
  }

  lemma NotAfter(devs: seq<Entry>, tenGig9: bool, a: Address, i: nat, j: nat)
    requires FirstAt(devs, tenGig9, a, i) && FirstAt(devs, tenGig9, a, j)
    ensures i <= j
  {
  }

  lemma FindsUnique(devs: seq<Entry>, me: Entry, up: bool, r: Option<nat>, r': Option<nat>)
    requires Finds(devs, me, up, r) && Finds(devs, me, up, r')
    ensures r == r'
  {
    if r.Some? && r'.Some? {
      NotAfter(devs, me.tenGig9, Wanted(me, up).value, r.value, r'.value);
      NotAfter(devs, me.tenGig9, Wanted(me, up).value, r'.value, r.value);
    }
  }

  /** get_status_port_fn. */
  method GetStatusPort(devs: array<Entry>, me: Option<Entry>) returns (r: Option<nat>)
    ensures if me.None? then r == None else Finds(devs[..], me.value, true, r)
  {
    if me.None? {
      return None;
    }
    var d := me.value;
    var i := 0;
    if d.tenGig9 {
      if d.funcP == 0 {
        while i < devs.Length && devs[i].present
          invariant 0 <= i <= devs.Length
          invariant forall j | 0 <= j < i :: devs[j].present && AddressOf(true, devs[j]) != Address(d.busP, d.slotP, 1)
        {
          if devs[i].busP == d.busP && devs[i].slotP == d.slotP && devs[i].funcP == 1 && d.funcP == 0 {
            return Some(i);
          }
          i := i + 1;
        }
      }
    } else if d.func == 0 || d.func == 2 {
      while i < devs.Length && devs[i].present
        invariant 0 <= i <= devs.Length
        invariant forall j | 0 <= j < i ::
                    devs[j].present && AddressOf(false, devs[j]) != Address(d.bus, d.slot, d.func + 1)
      {
        if devs[i].bus == d.bus && devs[i].slot == d.slot && devs[i].func == 1 && d.func == 0 {
          return Some(i);
        }
        if devs[i].bus == d.bus && devs[i].slot == d.slot && devs[i].func == 3 && d.func == 2 {
          return Some(i);
        }
        i := i + 1;
      }
    }
    return None;
  }

  /** get_master_port_fn. */
  method GetMasterPort(devs: array<Entry>, me: Option<Entry>) returns (r: Option<nat>)
    ensures if me.None? then r == None else Finds(devs[..], me.value, false, r)
  {
    if me.None? {
      return None;
    }
    var d := me.value;
    var i := 0;
    if d.tenGig9 {
      if d.funcP == 1 {
        while i < devs.Length && devs[i].present
          invariant 0 <= i <= devs.Length
          invariant forall j | 0 <= j < i :: devs[j].present && AddressOf(true, devs[j]) != Address(d.busP, d.slotP, 0)
        {
          if devs[i].busP == d.busP && devs[i].slotP == d.slotP && devs[i].funcP == 0 && d.funcP == 1 {
            return Some(i);
          }
          i := i + 1;
        }
      }
    } else if d.func == 1 || d.func == 3 {
      while i < devs.Length && devs[i].present
        invariant 0 <= i <= devs.Length
        invariant forall j | 0 <= j < i ::
                    devs[j].present && AddressOf(false, devs[j]) != Address(d.bus, d.slot, d.func - 1)
      {
        if devs[i].bus == d.bus && devs[i].slot == d.slot && devs[i].func == 0 && d.func == 1 {
          return Some(i);
        }
        if devs[i].bus == d.bus && devs[i].slot == d.slot && devs[i].func == 2 && d.func == 3 {
          return Some(i);
        }
        i := i + 1;
      }
    }
    return None;
  }

  /**
   get_bypass_slave_fn: 1 with the port get_status_port_fn finds, -1 if a controlling port has none,
   0 for any other port.
   */
  method GetBypassSlave(devs: array<Entry>, me: Option<Entry>) returns (ret: int, slave: Option<nat>)
    ensures ret == 1 <==> slave.Some?
    ensures me.Some? ==> Finds(devs[..], me.value, true, slave) && (ret == 0 <==> !IsBypass(me.value))
    ensures ret in {-1, 0, 1} && (me.None? ==> ret == -1)
  {
    if me.None? {
      return -1, None;
    }
    var d := me.value;
    var i := 0;
    if d.tenGig9 {
      if d.funcP == 0 {
        while i < devs.Length && devs[i].present
          invariant 0 <= i <= devs.Length
          invariant forall j | 0 <= j < i :: devs[j].present && AddressOf(true, devs[j]) != Address(d.busP, d.slotP, 1)
        {
          if devs[i].busP == d.busP && devs[i].slotP == d.slotP {
            if d.funcP == 0 && devs[i].funcP == 1 {
              return 1, Some(i);
            }
          }
          i := i + 1;
        }
        return -1, None;
      } else {
        return 0, None;
      }
    } else {
      if d.func == 0 || d.func == 2 {
        while i < devs.Length && devs[i].present
          invariant 0 <= i <= devs.Length
          invariant forall j | 0 <= j < i ::
                      devs[j].present && AddressOf(false, devs[j]) != Address(d.bus, d.slot, d.func + 1)
        {
          if devs[i].bus == d.bus && devs[i].slot == d.slot {
            if d.func == 0 && devs[i].func == 1 {
              return 1, Some(i);
            }
            if d.func == 2 && devs[i].func == 3 {
              return 1, Some(i);
            }
          }
          i := i + 1;
        }
        return -1, None;
      } else {
        return 0, None;
      }
    }
  }

  // ----- pairs -----

  /** The array starts out zeroed, and only a 10G9 is given an address in the other addressing. */
  ghost predicate Initialised(devs: seq<Entry>) {
    forall i | 0 <= i < |devs| && !devs[i].tenGig9 :: AddressOf(true, devs[i]) == Address(0, 0, 0)
  }

  /** No two ports share a PCI address, and no two 10G9 ports share one of the other kind. */
  ghost predicate Distinct(devs: seq<Entry>) {
    && (forall i, j | 0 <= i < j < |devs| && devs[i].present && devs[j].present ::
          AddressOf(false, devs[i]) != AddressOf(false, devs[j]))
    && (forall i, j | 0 <= i < j < |devs| && devs[i].present && devs[j].present && devs[i].tenGig9 && devs[j].tenGig9 ::
          AddressOf(true, devs[i]) != AddressOf(true, devs[j]))
  }

  /** `i` is the first entry with its address. */
  ghost predicate First(devs: seq<Entry>, tenGig9: bool, i: nat)
    requires i < |devs|
  {
    forall j | 0 <= j < i :: AddressOf(tenGig9, devs[j]) != AddressOf(tenGig9, devs[i])
  }

  /**
   Going to the partner and back, from either side, in any array: the way back ends where it began
   exactly if the partner, in its own addressing, asks for that port and finds no other before it.
   */
  lemma ThereAndBack(devs: seq<Entry>, i: nat, up: bool, k: nat, back: Option<nat>)
    requires Searched(devs, i) && k < |devs|
    requires Finds(devs, devs[i], up, Some(k)) && Finds(devs, devs[k], !up, back)
    ensures back == Some(i)
       <==> Wanted(devs[k], !up) == Some(AddressOf(devs[k].tenGig9, devs[i])) && First(devs, devs[k].tenGig9, i)
  {
    if Wanted(devs[k], !up) == Some(AddressOf(devs[k].tenGig9, devs[i])) && First(devs, devs[k].tenGig9, i) {
      FindsUnique(devs, devs[k], !up, back, Some(i));
    }
  }

  /** Two ports of one family do ask for each other. */
  lemma FamilyAsksBack(devs: seq<Entry>, i: nat, up: bool, k: nat)
    requires Searched(devs, i) && Finds(devs, devs[i], up, Some(k)) && devs[i].tenGig9 == devs[k].tenGig9
    ensures Wanted(devs[k], !up) == Some(AddressOf(devs[k].tenGig9, devs[i]))
  {
  }

  /** A 10G9 port at bus 0, slot 0, function 0 of its own addressing, behind a port that is not a 10G9. */
  ghost predicate Hidden(devs: seq<Entry>, i: nat)
    requires i < |devs|
  {
    && devs[i].tenGig9 && AddressOf(true, devs[i]) == Address(0, 0, 0)
    && exists j | 0 <= j < i :: !devs[j].tenGig9
  }

  /** In an array as the driver fills it, every port but a hidden one is the first with its address. */
  lemma FirstUnlessHidden(devs: seq<Entry>, i: nat)
    requires Searched(devs, i) && Initialised(devs) && Distinct(devs)
    ensures First(devs, devs[i].tenGig9, i) <==> !Hidden(devs, i)
  {
    if Hidden(devs, i) {
      var j :| 0 <= j < i && !devs[j].tenGig9;
      assert AddressOf(true, devs[j]) == AddressOf(true, devs[i]);
    } else if devs[i].tenGig9 && AddressOf(true, devs[i]) == Address(0, 0, 0) {
      assert forall j | 0 <= j < i :: devs[j].tenGig9;
    }
  }

  lemma FirstIsForeign(devs: seq<Entry>, i: nat, b: nat)
    requires Initialised(devs) && Distinct(devs) && Searched(devs, i) && Hidden(devs, i)
    requires FirstAt(devs, true, Address(0, 0, 0), b)
    ensures !devs[b].tenGig9
  {
    var j :| 0 <= j < i && !devs[j].tenGig9;
    assert AddressOf(true, devs[j]) == Address(0, 0, 0);
  }

  /**
   In such an array, whatever families it mixes, going from a port to a partner of its family and
   back ends at the port unless it is hidden; then it ends at a port of another family.
   */
  lemma WayBack(devs: seq<Entry>, i: nat, up: bool, k: nat, back: Option<nat>)
    requires Initialised(devs) && Distinct(devs) && Searched(devs, i) && k < |devs|
    requires devs[i].tenGig9 == devs[k].tenGig9
    requires Finds(devs, devs[i], up, Some(k)) && Finds(devs, devs[k], !up, back)
    ensures back == Some(i) <==> !Hidden(devs, i)
    ensures Hidden(devs, i) ==> back.Some? && !devs[back.value].tenGig9
  {
    ThereAndBack(devs, i, up, k, back);
    FamilyAsksBack(devs, i, up, k);
    FirstUnlessHidden(devs, i);
    if Hidden(devs, i) {
      FirstIsForeign(devs, i, back.value);
    }
  }

  /** So for ports of one family the two lookups are inverse to each other, but for hidden ports. */
  lemma Pairing(devs: seq<Entry>, m: nat, s: nat)
    requires Initialised(devs) && Distinct(devs) && Searched(devs, m) && Searched(devs, s)
    requires devs[m].tenGig9 == devs[s].tenGig9
    ensures Finds(devs, devs[m], true, Some(s)) && !Hidden(devs, m) <==> Finds(devs, devs[s], false, Some(m))
  {
    var family := devs[m].tenGig9;
    FirstUnlessHidden(devs, m);
    FirstUnlessHidden(devs, s);
    if Finds(devs, devs[m], true, Some(s)) && !Hidden(devs, m) {
      assert FirstAt(devs, family, AddressOf(family, devs[m]), m);
    }
    if Finds(devs, devs[s], false, Some(m)) {
      assert FirstAt(devs, family, AddressOf(family, devs[s]), s);
    }
  }

  /** And no port is the partner of two of a family. */
  lemma PartnersAreUnique(devs: seq<Entry>, m: nat, m': nat, s: nat, up: bool)
    requires Distinct(devs) && Searched(devs, m) && Searched(devs, m') && devs[m].tenGig9 == devs[m'].tenGig9
    requires Finds(devs, devs[m], up, Some(s)) && Finds(devs, devs[m'], up, Some(s))
    ensures m == m'
  {
    SameAddress(devs, m, m');
    SameAddress(devs, m', m);
  }

  lemma SameAddress(devs: seq<Entry>, i: nat, j: nat)
    requires Distinct(devs) && Searched(devs, i) && Searched(devs, j) && devs[i].tenGig9 == devs[j].tenGig9
    requires AddressOf(devs[i].tenGig9, devs[i]) == AddressOf(devs[i].tenGig9, devs[j])
    ensures i <= j
  {
  }

  /** A hidden port: an Ethernet pair of another family in front of a 10G9 pair at bus 0 and slot 0. */
  lemma HiddenPortLosesTheWayBack()
    ensures var devs := [Entry(true, false, 5, 0, 0, 0, 0, 0), Entry(true, true, 6, 0, 0, 0, 0, 0),
                         Entry(true, true, 6, 0, 1, 0, 0, 1)];
            && Initialised(devs) && Distinct(devs) && Searched(devs, 2)
            && Finds(devs, devs[1], true, Some(2)) && Finds(devs, devs[2], false, Some(0))
  {
    var devs := [Entry(true, false, 5, 0, 0, 0, 0, 0), Entry(true, true, 6, 0, 0, 0, 0, 0),
                 Entry(true, true, 6, 0, 1, 0, 0, 1)];
    assert AddressOf(true, devs[0]) == AddressOf(true, devs[1]) == Address(0, 0, 0);
    assert AddressOf(true, devs[2]) == Address(0, 0, 1);
    assert Wanted(devs[1], true) == Some(Address(0, 0, 1)) && Wanted(devs[2], false) == Some(Address(0, 0, 0));
    assert AddressOf(false, devs[0]) == Address(5, 0, 0) && AddressOf(false, devs[1]) == Address(6, 0, 0);
  }
}
