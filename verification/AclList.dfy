/** Editing an access control list: the specification functions of the ACL commands (ap/ap_cfg.c) and
    what the commands promise about the list. */
module AclList {
  import opened Types
  import opened Wrappers

  const MAX_NUM_OF_ACL_LIST := 64

  ghost predicate Distinct<T>(s: seq<T>) {
    forall i, j :: 0 <= i < j < |s| ==> s[i] != s[j]
  }

  predicate Fits(acl: seq<Mac>) {
    |acl| <= MAX_NUM_OF_ACL_LIST
  }

  // The list fits in its array and holds no address twice.
  ghost predicate Sound(acl: seq<Mac>) {
    Fits(acl) && Distinct(acl)
  }

  // The list after adding `addrs` one after the other, stopping as soon as the list is full.
  function AddLoop(acl: seq<Mac>, addrs: seq<Mac>): seq<Mac>
    decreases addrs
  {
    if addrs == [] then acl
    else
      var acl' := if addrs[0] in acl then acl else acl + [addrs[0]];
      if |acl'| == MAX_NUM_OF_ACL_LIST then acl' else AddLoop(acl', addrs[1..])
  }

  // The add command refuses a list with one entry left and works on a copy otherwise.
  predicate AddRefused(acl: seq<Mac>) {
    |acl| >= MAX_NUM_OF_ACL_LIST - 1
  }

  function Add(acl: seq<Mac>, addrs: seq<Mac>): seq<Mac> {
    if AddRefused(acl) then acl else AddLoop(acl, addrs)
  }

  // Overwrites every occurrence of `a` by the all-zero address.
  function Blank(acl: seq<Mac>, a: Mac): (r: seq<Mac>)
    ensures |r| == |acl|
    ensures forall j :: 0 <= j < |acl| ==> r[j] == if acl[j] == a then ZERO_MAC else acl[j]
  {
    seq(|acl|, j requires 0 <= j < |acl| => if acl[j] == a then ZERO_MAC else acl[j])
  }

  function BlankAll(acl: seq<Mac>, addrs: seq<Mac>): (r: seq<Mac>)
    ensures |r| == |acl|
    decreases addrs
  {
    if addrs == [] then acl else BlankAll(Blank(acl, addrs[0]), addrs[1..])
  }

  // The entries other than the all-zero address, in order.
  function Compact(acl: seq<Mac>): seq<Mac> {
    if acl == [] then []
    else (if acl[0] == ZERO_MAC then [] else [acl[0]]) + Compact(acl[1..])
  }

  function Del(acl: seq<Mac>, addrs: seq<Mac>): seq<Mac> {
    Compact(BlankAll(acl, addrs))
  }

  // The elements of `acl` that are in neither `addrs` nor zero, in order.
  function Without(acl: seq<Mac>, addrs: seq<Mac>): seq<Mac> {
    if acl == [] then []
    else (if acl[0] in addrs || acl[0] == ZERO_MAC then [] else [acl[0]]) + Without(acl[1..], addrs)
  }

  // ---------- adding ----------

  /** Adding keeps the entries pairwise distinct, extends the old list in order and never overfills it;
      what it appends comes from the arguments, and every argument is in the list unless the list is full. */
  lemma {:induction false} AddLoopSound(acl: seq<Mac>, addrs: seq<Mac>)
    requires |acl| < MAX_NUM_OF_ACL_LIST
    ensures acl <= AddLoop(acl, addrs)
    ensures |AddLoop(acl, addrs)| <= MAX_NUM_OF_ACL_LIST
    ensures Distinct(acl) ==> Distinct(AddLoop(acl, addrs))
    ensures forall a :: a in AddLoop(acl, addrs) ==> a in acl || a in addrs
    ensures |AddLoop(acl, addrs)| < MAX_NUM_OF_ACL_LIST ==> forall a :: a in addrs ==> a in AddLoop(acl, addrs)
    decreases addrs
  {
    if addrs != [] {
      var acl' := if addrs[0] in acl then acl else acl + [addrs[0]];
      if |acl'| != MAX_NUM_OF_ACL_LIST {
        AddLoopSound(acl', addrs[1..]);
        assert addrs[0] in acl';
        assert forall a :: a in addrs ==> a == addrs[0] || a in addrs[1..];
      }
    }
  }

  lemma AddSound(acl: seq<Mac>, addrs: seq<Mac>)
    requires |acl| <= MAX_NUM_OF_ACL_LIST
    ensures acl <= Add(acl, addrs) && |Add(acl, addrs)| <= MAX_NUM_OF_ACL_LIST
    ensures Distinct(acl) ==> Distinct(Add(acl, addrs))
  {
    if !AddRefused(acl) {
      AddLoopSound(acl, addrs);
    }
  }

  lemma {:induction false} AddLoopNew(acl: seq<Mac>, addrs: seq<Mac>)
    requires |acl| < MAX_NUM_OF_ACL_LIST && Distinct(addrs) && forall a :: a in addrs ==> a !in acl
    ensures AddLoop(acl, addrs) == acl + if |addrs| <= 64 - |acl| then addrs else addrs[..64 - |acl|]
    decreases addrs
  {
    if addrs == [] {
      NothingAdded(acl);
    } else {
      assert addrs == [addrs[0]] + addrs[1..];
      var acl' := acl + [addrs[0]];
      if |acl'| != MAX_NUM_OF_ACL_LIST {
        assert forall a :: a in addrs[1..] ==> a !in acl';
        AddLoopNew(acl', addrs[1..]);
      }
    }
  }

  /** Adding new addresses appends them in order, as many as fit into 64 entries, provided that at least two entries are free;
      otherwise, even if one is free, the command is refused. */
  lemma AddNew(acl: seq<Mac>, addrs: seq<Mac>)
    requires |acl| <= MAX_NUM_OF_ACL_LIST && Distinct(addrs) && forall a :: a in addrs ==> a !in acl
    ensures Add(acl, addrs) == if |acl| >= 63 then acl
                               else acl + if |addrs| <= 64 - |acl| then addrs else addrs[..64 - |acl|]
  {
    if |acl| < 63 {
      AddLoopNew(acl, addrs);
    }
  }

  // ---------- deleting ----------

  lemma {:induction false} CompactBlanked(acl: seq<Mac>, orig: seq<Mac>, addrs: seq<Mac>)
    requires |acl| == |orig|
    requires forall j :: 0 <= j < |acl| ==> acl[j] == if orig[j] in addrs then ZERO_MAC else orig[j]
    ensures Compact(acl) == Without(orig, addrs)
  {
    if acl != [] {
      CompactBlanked(acl[1..], orig[1..], addrs);
    }
  }

  lemma {:induction false} BlankAllAt(acl: seq<Mac>, addrs: seq<Mac>)
    ensures forall j :: 0 <= j < |acl| ==> BlankAll(acl, addrs)[j] == if acl[j] in addrs then ZERO_MAC else acl[j]
    decreases addrs
  {
    if addrs != [] {
      var acl' := Blank(acl, addrs[0]);
      BlankAllAt(acl', addrs[1..]);
      assert forall a :: a in addrs <==> a == addrs[0] || a in addrs[1..];
    }
  }

  /** Deleting leaves the order-preserving filter of the old list. */
  lemma DelIsFilter(acl: seq<Mac>, addrs: seq<Mac>)
    ensures Del(acl, addrs) == Without(acl, addrs)
  {
    BlankAllAt(acl, addrs);
    CompactBlanked(BlankAll(acl, addrs), acl, addrs);
  }

  lemma {:induction false} WithoutMembers(acl: seq<Mac>, addrs: seq<Mac>)
    ensures forall a :: a in Without(acl, addrs) <==> a in acl && a !in addrs && a != ZERO_MAC
    ensures |Without(acl, addrs)| <= |acl|
    ensures Distinct(acl) ==> Distinct(Without(acl, addrs))
  {
    if acl != [] {
      WithoutMembers(acl[1..], addrs);
      assert forall a :: a in acl <==> a == acl[0] || a in acl[1..];
      if Distinct(acl) {
        assert Distinct(acl[1..]);
        assert acl[0] !in acl[1..];
      }
    }
  }

  lemma {:induction false} WithoutAppend(a: seq<Mac>, b: seq<Mac>, addrs: seq<Mac>)
    ensures Without(a + b, addrs) == Without(a, addrs) + Without(b, addrs)
  {
    if a == [] {
      assert a + b == b;
    } else {
      var head := if a[0] in addrs || a[0] == ZERO_MAC then [] else [a[0]];
      WithoutAppend(a[1..], b, addrs);
      assert (a + b)[1..] == a[1..] + b;
      Joined(head, Without(a[1..], addrs), Without(b, addrs));
    }
  }

  lemma {:induction false} WithoutKeeps(acl: seq<Mac>, addrs: seq<Mac>)
    requires forall a :: a in acl ==> a !in addrs && a != ZERO_MAC
    ensures Without(acl, addrs) == acl
  {
    if acl != [] {
      WithoutKeeps(acl[1..], addrs);
    }
  }

  lemma {:induction false} WithoutDrops(acl: seq<Mac>, addrs: seq<Mac>)
    requires forall a :: a in acl ==> a in addrs || a == ZERO_MAC
    ensures Without(acl, addrs) == []
  {
    if acl != [] {
      WithoutDrops(acl[1..], addrs);
    }
  }

  /** Adding new addresses and deleting the same addresses restores the list exactly when the list
      contained no all-zero address. The addition may even have been cut short or refused. */
  lemma AddThenDel(acl: seq<Mac>, addrs: seq<Mac>)
    requires |acl| <= MAX_NUM_OF_ACL_LIST
    requires forall a :: a in addrs ==> a !in acl
    ensures Del(Add(acl, addrs), addrs) == acl <==> ZERO_MAC !in acl
  {
    var added := Add(acl, addrs);
    DelIsFilter(added, addrs);
    if AddRefused(acl) {
      assert added == acl + [];
    } else {
      AddLoopSound(acl, addrs);
    }
    var tail := added[|acl|..];
    assert added == acl + tail;
    WithoutAppend(acl, tail, addrs);
    TailIsNew(acl, addrs);
    WithoutDrops(tail, addrs);
    WithoutMembers(acl, addrs);
    if ZERO_MAC !in acl {
      WithoutKeeps(acl, addrs);
    } else {
      assert ZERO_MAC !in Without(acl, addrs);
    }
  }

  lemma {:induction false} TailIsNew(acl: seq<Mac>, addrs: seq<Mac>)
    requires |acl| <= MAX_NUM_OF_ACL_LIST
    ensures acl <= Add(acl, addrs)
    ensures forall a :: a in Add(acl, addrs)[|acl|..] ==> a in addrs
  {
    if !AddRefused(acl) {
      TailOfLoop(acl, addrs);
    }
  }

  lemma {:induction false} TailOfLoop(acl: seq<Mac>, addrs: seq<Mac>)
    requires |acl| < MAX_NUM_OF_ACL_LIST
    ensures acl <= AddLoop(acl, addrs)
    ensures forall a :: a in AddLoop(acl, addrs)[|acl|..] ==> a in addrs
    decreases addrs
  {
    if addrs != [] {
      var acl' := if addrs[0] in acl then acl else acl + [addrs[0]];
      assert acl <= acl';
      if |acl'| == MAX_NUM_OF_ACL_LIST {
        assert acl'[|acl|..] == [addrs[0]];
      } else {
        TailOfLoop(acl', addrs[1..]);
        var r := AddLoop(acl', addrs[1..]);
        assert r[|acl|..] == r[|acl|..|acl'|] + r[|acl'|..];
        assert r[|acl|..|acl'|] == acl'[|acl|..];
      }
    }
  }
}
