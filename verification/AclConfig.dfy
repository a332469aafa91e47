/** The access control list of a BSS as the commands of ap/ap_cfg.c edit it in place, and the check of ap/ap.c. */
module AclConfig {
  import opened Types
  import opened AclList
  import opened Wrappers
  import opened Steps

  class AccessList {
    var policy: nat
    var num: nat
    const entry: array<Mac>

    ghost predicate Valid()
      reads this
    {
      entry.Length == MAX_NUM_OF_ACL_LIST && num <= MAX_NUM_OF_ACL_LIST
    }

    ghost function List(): (l: seq<Mac>)
      requires Valid()
      reads this, entry
      ensures |l| == num
    {
      entry[..num]
    }

    constructor ()
      ensures Valid() && fresh(entry) && policy == 0 && List() == []
    {
      entry := new Mac[MAX_NUM_OF_ACL_LIST](_ => ZERO_MAC);
      policy, num := 0, 0;
    }

    // A list with the given contents.
    constructor Load(policy: nat, acl: seq<Mac>)
      requires |acl| <= MAX_NUM_OF_ACL_LIST
      ensures Valid() && fresh(entry) && this.policy == policy && List() == acl
    {
      entry := new Mac[MAX_NUM_OF_ACL_LIST](j => if 0 <= j < |acl| then acl[j] else ZERO_MAC);
      this.policy, num := policy, |acl|;
      new;
      assert entry[..num] == acl;
    }

    // The contents as a value.
    method Contents() returns (acl: seq<Mac>)
      requires Valid()
      ensures acl == List()
    {
      acl := entry[..num];
    }

    /** The list part of Set_AccessPolicy_Proc. */
    method SetPolicy(p: nat) returns (ok: bool)
      requires Valid()
      modifies this`policy
      ensures Valid() && List() == old(List())
      ensures ok == (p <= 2) && policy == if p <= 2 then p else old(policy)
    {
      ok := p <= 2;
      if ok {
        policy := p;
      }
    }

    // The entry is in the list.
    method Contains(a: Mac) returns (found: bool)
      requires Valid()
      ensures found <==> a in List()
    {
      found := false;
      for j := 0 to num
        invariant found <==> a in entry[..j]
      {
        if entry[j] == a {
          found := true;
        }
        assert entry[..j + 1] == entry[..j] + [entry[j]];
      }
    }

    /** The list part of Set_ACLAddEntry_Proc for the well-formed addresses of its argument.  The list is copied, extended
        until it is full, and copied back. */
    method AddEntries(addrs: seq<Mac>) returns (ok: bool)
      requires Valid()
      modifies this, entry
      ensures Valid() && policy == old(policy)
      ensures ok == !AddRefused(old(List())) && List() == Add(old(List()), addrs)
    {
      ok := num < MAX_NUM_OF_ACL_LIST - 1;
      if !ok {
        return;
      }
      var copy := new AccessList();
      copy.CopyFrom(this);
      copy.Extend(addrs);
      CopyFrom(copy);
    }

    method CopyFrom(other: AccessList)
      requires Valid() && other.Valid() && other != this && other.entry != entry
      modifies this, entry
      ensures Valid() && policy == other.policy && List() == old(other.List())
    {
      policy, num := other.policy, other.num;
      for j := 0 to num
        invariant other.entry[..] == old(other.entry[..]) && num == old(other.num) && policy == other.policy
        invariant entry[..j] == other.entry[..j]
      {
        entry[j] := other.entry[j];
      }
    }

    // The loop over the addresses.
    method Extend(addrs: seq<Mac>)
      requires Valid() && num < MAX_NUM_OF_ACL_LIST
      modifies this`num, entry
      ensures Valid() && List() == AddLoop(old(List()), addrs)
    {
      var k := 0;
      while k < |addrs|
        invariant Valid() && k <= |addrs| && num < MAX_NUM_OF_ACL_LIST
        invariant AddLoop(old(List()), addrs) == AddLoop(List(), addrs[k..])
      {
        ghost var before := List();
        assert addrs[k..][0] == addrs[k] && addrs[k..][1..] == addrs[k + 1..];
        var isDuplicate := Contains(addrs[k]);
        if !isDuplicate {
          entry[num] := addrs[k];
          num := num + 1;
          assert List() == before + [addrs[k]];
        }
        if num == MAX_NUM_OF_ACL_LIST {
          return;
        }
        k := k + 1;
      }
    }

    /** The list part of Set_ACLDelEntry_Proc: the entries are blanked in a copy, which is then compacted back. */
    method DelEntries(addrs: seq<Mac>)
      requires Valid()
      modifies this`num, entry
      ensures Valid() && policy == old(policy) && List() == Del(old(List()), addrs)
    {
      var copy := new AccessList();
      copy.CopyFrom(this);
      ghost var was := List();
      for k := 0 to |addrs|
        invariant Valid() && copy.Valid() && copy.num == num && fresh(copy) && fresh(copy.entry)
        invariant List() == was && BlankAll(was, addrs) == BlankAll(copy.List(), addrs[k..])
      {
        assert addrs[k..][0] == addrs[k] && addrs[k..][1..] == addrs[k + 1..];
        copy.BlankEntry(addrs[k]);
      }
      CompactFrom(copy);
    }

    method BlankEntry(a: Mac)
      requires Valid()
      modifies entry
      ensures Valid() && List() == Blank(old(List()), a)
    {
      ghost var was := List();
      for j := 0 to num
        invariant forall i :: 0 <= i < num ==> entry[i] == if i < j && was[i] == a then ZERO_MAC else was[i]
      {
        if entry[j] == a {
          entry[j] := ZERO_MAC;
        }
      }
    }

    method CompactFrom(copy: AccessList)
      requires Valid() && copy.Valid() && copy != this && copy.entry != entry && copy.num == num
      modifies this`num, entry
      ensures Valid() && List() == Compact(copy.List())
    {
      hide Compact;
      var i := 0;
      ghost var list := copy.List();
      CompactEnds(list);
      for j := 0 to copy.num
        invariant i <= j && copy.List() == list
        invariant Compact(list) == entry[..i] + Compact(list[j..])
      {
        ghost var front := entry[..i];
        CompactStep(list, j);
        if copy.entry[j] != ZERO_MAC {
          entry[i] := copy.entry[j];
          assert entry[..i + 1] == front + [copy.entry[j]];
          Joined(front, [copy.entry[j]], Compact(list[j + 1..]));
          i := i + 1;
        }
      }
      num := i;
    }

    /** The list part of Set_ACLClearAll_Proc. */
    method ClearAll()
      requires Valid()
      modifies this`num, entry
      ensures Valid() && policy == old(policy) && List() == []
    {
      while num > 0
        invariant Valid()
      {
        entry[num - 1] := ZERO_MAC;
        num := num - 1;
      }
    }

    /** ApCheckAccessControlList. */
    method Check(a: Mac, ghost b: Bss) returns (result: bool)
      requires Valid() && b.policy == policy && b.acl == List()
      ensures result == AclPasses(b, a)
    {
      result := true;
      if policy != 0 {
        result := policy != 1;
        var i := 0;
        while i < num
          invariant i <= num && a !in entry[..i] && result == (policy != 1)
        {
          if entry[i] == a {
            assert a in List();
            result := !result;
            return;
          }
          i := i + 1;
        }
      }
    }
  }

  // One entry of the list that is compacted.
  lemma CompactStep(list: seq<Mac>, j: nat)
    requires j < |list|
    ensures Compact(list[j..]) == (if list[j] == ZERO_MAC then [] else [list[j]]) + Compact(list[j + 1..])
    ensures list[j] == ZERO_MAC ==> Compact(list[j..]) == Compact(list[j + 1..])
  {
    assert list[j..][0] == list[j] && list[j..][1..] == list[j + 1..];
  }

  lemma CompactEnds(list: seq<Mac>)
    ensures Compact(list[0..]) == Compact(list) && Compact(list[|list|..]) == []
  {
    assert list[0..] == list && list[|list|..] == [];
  }
}
