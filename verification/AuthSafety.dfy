/** Authentication and association over whole runs: which events must have happened for a station to be where
    it is.  `Exec(s, es[..k])` is the state before event `k` of the run `es`. */
module AuthSafety {
  import opened Types
  import opened MacTable
  import opened Steps
  import opened Membership
  import opened Wrappers

  // The station with address `a` is in slot `w` of BSS `b` and has got past authentication.
  predicate Admitted(s: Ap, w: nat, a: Mac, b: nat)
    requires Shape(s) && w < MAX_LEN_OF_MAC_TABLE
  {
    var e := s.entries[w];
    IsClient(e) && e.addr == a && e.apidx == b && (e.sst == Auth || e.sst == Assoc)
  }

  // An open-system request that BSS `b` accepts.
  predicate OpenGrant(s: Ap, e: Event, a: Mac, b: nat)
    requires Shape(s)
  {
    && e.EvAuth? && e.frame.seqNo == 1 && e.frame.alg == AUTH_MODE_OPEN && e.frame.addr2 == a
    && b < |s.bss| && s.bss[b].bssid == e.frame.addr1 && AcceptsOpen(s.bss[b]) && AclPasses(s.bss[b], a)
  }

  // A WEP frame that echoes the stored challenge of its sender.
  predicate KeyGrant(s: Ap, e: Event, w: nat, a: Mac, b: nat)
    requires Shape(s)
  {
    && e.EvAuth? && e.frame.seqNo == 3 && e.frame.alg == AUTH_MODE_KEY && e.frame.addr2 == a && e.frame.wcid == w
    && b < |s.bss| && s.bss[b].bssid == e.frame.addr1
    && e.frame.wep && s.auxAddr == a && e.frame.text == s.auxChallenge
  }

  predicate Grants(s: Ap, e: Event, w: nat, a: Mac, b: nat)
    requires Shape(s)
  {
    OpenGrant(s, e, a, b) || KeyGrant(s, e, w, a, b)
  }

  // The request is answered with a fresh challenge.
  predicate Challenged(s: Ap, w: nat, b: nat, f: AuthFrame)
    requires Shape(s) && w <= |s.entries| && b < |s.bss|
  {
    && f.alg == AUTH_MODE_KEY && AclPasses(s.bss[b], f.addr2) && AcceptsKey(s.bss[b])
    && var (t, v) := Ensure(s, w, f.addr2, b);
    v < |t.entries|
  }

  // The event makes the access point draw a challenge for the station with address `a`.
  predicate Issues(s: Ap, e: Event, a: Mac)
    requires Shape(s)
  {
    && e.EvAuth? && e.frame.seqNo == 1 && e.frame.addr2 == a && e.frame.devUp
    && var b := FindBss(s.bss, e.frame.addr1);
    && b < |s.bss|
    && var (s1, w) := Rehome(s, Lookup(s, a), e.frame.addr1);
    Challenged(s1, w, b, e.frame)
  }

  // ---------- single steps ----------

  // Event by event: the stored challenge changes exactly when one is issued.
  lemma AuxStep(s: Ap, e: Event)
    requires Enabled(s, e)
    ensures var t := Step(s, e);
            if e.EvAuth? && Issues(s, e, e.frame.addr2) then t.auxAddr == e.frame.addr2 && t.auxChallenge == e.nonce
            else t.auxAddr == s.auxAddr && t.auxChallenge == s.auxChallenge
  {
    hide UpdateAclFrom, RxAuth, AclPasses;
    if Plain(e) {
      PlainGood(s, e);
    } else {
      match e
      case EvAuth(f, nonce) => AuxAuth(s, f, nonce);
      case EvAssoc(f) =>
      case EvPolicy(b, policy) => UpdateAclShrinks(SetBss(s, b, s.bss[b].(policy := policy)), b, 0);
      case EvAclAdd(b, addrs) => UpdateAclShrinks(SetBss(s, b, s.bss[b].(acl := AclList.Add(s.bss[b].acl, addrs))), b, 0);
      case EvAclDel(b, addrs) => UpdateAclShrinks(SetBss(s, b, s.bss[b].(acl := AclList.Del(s.bss[b].acl, addrs))), b, 0);
      case EvAclClear(b) => UpdateAclShrinks(SetBss(s, b, s.bss[b].(acl := [])), b, 0);
    }
  }

  lemma AuxAuthAt(s: Ap, w: nat, b: nat, f: AuthFrame, nonce: Challenge)
    requires Shape(s) && w <= |s.entries| && b < |s.bss|
    ensures var t := AuthReqAt(s, w, b, f, nonce);
            if Challenged(s, w, b, f) then t.auxAddr == f.addr2 && t.auxChallenge == nonce
            else t.auxAddr == s.auxAddr && t.auxChallenge == s.auxChallenge
  {
    hide AclPasses, DeleteSlot, Ensure, SetSst;
  }

  lemma AuxAuth(s: Ap, f: AuthFrame, nonce: Challenge)
    requires Shape(s)
    ensures var t := RxAuth(s, f, nonce);
            if Issues(s, EvAuth(f, nonce), f.addr2) then t.auxAddr == f.addr2 && t.auxChallenge == nonce
            else t.auxAddr == s.auxAddr && t.auxChallenge == s.auxChallenge
  {
    var b := FindBss(s.bss, f.addr1);
    if b < |s.bss| {
      var (s1, w) := Rehome(s, Lookup(s, f.addr2), f.addr1);
      AuxAuthAt(s1, w, b, f, nonce);
    }
    hide AuthReqAt, Challenged, DeleteSlot, Rehome;
  }

  lemma {:induction false} UpdateAclShrinks(s: Ap, b: nat, i: nat)
    requires Shape(s) && b < |s.bss| && i <= MAX_LEN_OF_MAC_TABLE
    ensures Good(s, UpdateAclFrom(s, b, i))
    decreases MAX_LEN_OF_MAC_TABLE - i
  {
    if i == MAX_LEN_OF_MAC_TABLE {
      KeepsRefl(s);
      KeepsGood(s, s);
    } else {
      hide Good, Delete;
      var t := Delete(s, i, s.entries[i].addr);
      DeleteGood(s, i, s.entries[i].addr);
      UpdateAclShrinks(t, b, i + 1);
      UpdateAclShrinks(s, b, i + 1);
      GoodTrans(s, t, UpdateAclFrom(t, b, i + 1));
    }
  }

  // The association request of the station with address `a` in slot `w` that succeeds.
  predicate AcceptsAssoc(s: Ap, e: Event, w: nat, a: Mac)
    requires Shape(s)
  {
    && e.EvAssoc? && e.assoc.addr2 == a && Lookup(s, a) == w < |s.entries|
    && e.assoc.sane && e.assoc.ssidOk && AssocSucceeds(s, w, e.assoc)
  }

  // What an authentication or association frame can do to the slot `v`.
  lemma AssocLineage(s: Ap, f: AssocFrame, v: nat)
    requires Shape(s) && v < MAX_LEN_OF_MAC_TABLE
    ensures var e, g := s.entries[v], AssocReq(s, f).entries[v];
            && g.kind == e.kind && g.addr == e.addr && g.apidx == e.apidx
            && (g.sst == e.sst || (g.sst == Assoc && (e.sst == Auth || e.sst == Assoc) && e.addr == f.addr2
                                   && AcceptsAssoc(s, EvAssoc(f), v, f.addr2)))
  {
    hide AclPasses, BuildAssociation, Lookup, AssocSucceeds;
    LookupIs(s, f.addr2);
    if Lookup(s, f.addr2) < MAX_LEN_OF_MAC_TABLE {
      BuildLineage(s, Lookup(s, f.addr2), f, v);
    }
  }

  lemma LookupIs(s: Ap, addr: Mac)
    ensures var w := Lookup(s, addr); w <= |s.entries| && (w < |s.entries| ==> s.entries[w].addr == addr)
  {
  }

  lemma BuildLineage(s: Ap, w: nat, f: AssocFrame, v: nat)
    requires Shape(s) && w < MAX_LEN_OF_MAC_TABLE && v < MAX_LEN_OF_MAC_TABLE
    ensures var e, g := s.entries[v], BuildAssociation(s, w, f).entries[v];
            && g.kind == e.kind && g.addr == e.addr && g.apidx == e.apidx
            && (g.sst == e.sst || (g.sst == Assoc && (e.sst == Auth || e.sst == Assoc) && v == w && AssocSucceeds(s, w, f)))
  {
    hide NeedsPort;
  }

  // A slot outside the one concerned keeps its identity; the one concerned is admitted only by a grant.
  lemma AuthReqAtLineage(s: Ap, w: nat, b: nat, f: AuthFrame, nonce: Challenge, v: nat)
    requires Shape(s) && w <= |s.entries| && b < |s.bss| && v < MAX_LEN_OF_MAC_TABLE
    requires w < |s.entries| ==> IsClient(s.entries[w]) && s.entries[w].addr == f.addr2
    requires f.alg == AUTH_MODE_OPEN || f.alg == AUTH_MODE_KEY
    ensures var e, g := s.entries[v], AuthReqAt(s, w, b, f, nonce).entries[v];
            IsClient(g) ==>
              || SameId(e, g)
              || (g.addr == f.addr2 && g.sst == NotAuth)
              || (g.addr == f.addr2 && g.sst == Auth && f.alg == AUTH_MODE_OPEN && AcceptsOpen(s.bss[b])
                  && AclPasses(s.bss[b], f.addr2) && (w == |s.entries| ==> g.apidx == b) && (w < |s.entries| ==> g.apidx == e.apidx))
  {
    hide AclPasses, Ensure, DeleteSlot;
    EnsureFrame(s, w, f.addr2, b, v);
    DeleteSlotGood(s, w);
  }

  lemma EnsureFrame(s: Ap, w: nat, addr: Mac, b: nat, v: nat)
    requires Shape(s) && w <= |s.entries| && b < |s.bss| && v < MAX_LEN_OF_MAC_TABLE
    ensures var (t, u) := Ensure(s, w, addr, b);
            && (w < |s.entries| ==> u == w && t == s)
            && (w == |s.entries| && u == v ==> t.entries[v] == NewEntry(s, addr, b))
            && (u != v ==> SameId(s.entries[v], t.entries[v]) || !IsClient(t.entries[v]))
  {
    InsertFrame(s, addr, b);
  }

  // The slot of the sender of a request after stations of other BSSs have been sent away.
  lemma RehomeFacts(s: Ap, f: AuthFrame, v: nat, c: nat)
    requires Stations(s) && v < MAX_LEN_OF_MAC_TABLE && c == FindBss(s.bss, f.addr1) && c < |s.bss|
    ensures var (s1, w) := Rehome(s, Lookup(s, f.addr2), f.addr1);
            && c < |s1.bss| && SameConfig(s.bss[c], s1.bss[c])
            && (SameId(s.entries[v], s1.entries[v]) || !IsClient(s1.entries[v]))
            && (w < |s1.entries| ==> IsClient(s1.entries[w]) && s1.entries[w].addr == f.addr2 && s1.entries[w].apidx == c)
  {
    var w0 := Lookup(s, f.addr2);
    RehomeGone(s, f.addr2, f.addr1);
    RehomeGood(s, w0, f.addr1);
    var (s1, w) := Rehome(s, w0, f.addr1);
    assert SameConfig(s.bss[c], s1.bss[c]);
    if w < |s1.entries| {
      assert Welcome(s, w);
    }
    hide Stations, Rehome;
  }

  lemma AuthReqLineage(s: Ap, f: AuthFrame, nonce: Challenge, v: nat, a: Mac, b: nat)
    requires Stations(s) && v < MAX_LEN_OF_MAC_TABLE && f.seqNo == 1
    requires f.alg == AUTH_MODE_OPEN || f.alg == AUTH_MODE_KEY
    requires Admitted(AuthReq(s, f, nonce), v, a, b)
    ensures Admitted(s, v, a, b) || OpenGrant(s, EvAuth(f, nonce), a, b)
  {
    assert Shape(s);
    hide AuthReqAt, Stations, Rehome, AclPasses;
    var c := FindBss(s.bss, f.addr1);
    if c < |s.bss| && f.devUp {
      RehomeFacts(s, f, v, c);
      var (s1, w) := Rehome(s, Lookup(s, f.addr2), f.addr1);
      AuthReqAtLineage(s1, w, c, f, nonce, v);
      AclPassesSame(s.bss[c], s1.bss[c], f.addr2);
    }
  }

  lemma AclPassesSame(x: Bss, y: Bss, a: Mac)
    requires SameConfig(x, y)
    ensures AclPasses(x, a) == AclPasses(y, a)
  {
  }

  lemma AuthConfirmLineage(s: Ap, f: AuthFrame, nonce: Challenge, v: nat, a: Mac, b: nat)
    requires Shape(s) && v < MAX_LEN_OF_MAC_TABLE && f.seqNo == 3 && f.alg == AUTH_MODE_KEY
    requires FrameFrom(s, f.wcid, f.addr2)
    requires Admitted(AuthConfirm(s, f), v, a, b)
    ensures Admitted(s, v, a, b) || KeyGrant(s, EvAuth(f, nonce), v, a, b)
  {
    if f.wcid < MAX_LEN_OF_MAC_TABLE {
      RehomeGood(s, f.wcid, f.addr1);
      var (s1, w) := Rehome(s, f.wcid, f.addr1);
      DeleteSlotGood(s1, w);
      assert SameId(s.entries[v], s1.entries[v]) || !IsClient(s1.entries[v]);
      assert SameId(s1.entries[v], DeleteSlot(s1, w).entries[v]) || !IsClient(DeleteSlot(s1, w).entries[v]);
      hide Good, DeleteSlot;
    }
  }

  lemma GoodLineage(s: Ap, t: Ap, v: nat, a: Mac, b: nat)
    requires Good(s, t) && v < MAX_LEN_OF_MAC_TABLE && Admitted(t, v, a, b)
    ensures SameId(s.entries[v], t.entries[v])
  {
  }

  /** No step but a grant admits a station, and a station becomes associated only through its own
      association request while it is admitted. */
  lemma StepLineage(s: Ap, e: Event, v: nat, a: Mac, b: nat)
    requires Enabled(s, e) && Stations(s) && v < MAX_LEN_OF_MAC_TABLE
    requires Admitted(Step(s, e), v, a, b)
    ensures Admitted(s, v, a, b) || Grants(s, e, v, a, b)
    ensures Step(s, e).entries[v].sst == Assoc ==>
              Admitted(s, v, a, b) && (s.entries[v].sst == Assoc || AcceptsAssoc(s, e, v, a))
  {
    assert Shape(s);
    hide Stations, RxAuth, AssocReq, UpdateAcl;
    if Plain(e) {
      PlainGood(s, e);
      hide Step;
      GoodLineage(s, Step(s, e), v, a, b);
    } else {
      match e
      case EvAuth(f, nonce) => AuthLineage(s, f, nonce, v, a, b);
      case EvAssoc(f) => AssocLineage(s, f, v);
      case EvPolicy(c, policy) => AclLineage(s, c, s.bss[c].(policy := policy), v, a, b);
      case EvAclAdd(c, addrs) => AclLineage(s, c, s.bss[c].(acl := AclList.Add(s.bss[c].acl, addrs)), v, a, b);
      case EvAclDel(c, addrs) => AclLineage(s, c, s.bss[c].(acl := AclList.Del(s.bss[c].acl, addrs)), v, a, b);
      case EvAclClear(c) => AclLineage(s, c, s.bss[c].(acl := []), v, a, b);
    }
  }

  lemma AclLineage(s: Ap, c: nat, x: Bss, v: nat, a: Mac, b: nat)
    requires Shape(s) && c < |s.bss| && |x.timBitmaps| == WLAN_MAX_NUM_OF_TIM && v < MAX_LEN_OF_MAC_TABLE
    ensures Admitted(UpdateAcl(SetBss(s, c, x), c), v, a, b) ==> SameId(s.entries[v], UpdateAcl(SetBss(s, c, x), c).entries[v])
  {
    UpdateAclShrinks(SetBss(s, c, x), c, 0);
    if Admitted(UpdateAclFrom(SetBss(s, c, x), c, 0), v, a, b) {
      GoodLineage(SetBss(s, c, x), UpdateAclFrom(SetBss(s, c, x), c, 0), v, a, b);
    }
  }

  // An authentication frame never leaves a station associated that was not.
  lemma AuthLineage(s: Ap, f: AuthFrame, nonce: Challenge, v: nat, a: Mac, b: nat)
    requires Stations(s) && v < MAX_LEN_OF_MAC_TABLE && FrameFrom(s, f.wcid, f.addr2)
    requires Admitted(RxAuth(s, f, nonce), v, a, b)
    ensures Admitted(s, v, a, b) || Grants(s, EvAuth(f, nonce), v, a, b)
    ensures RxAuth(s, f, nonce).entries[v].sst == Assoc ==> SameId(s.entries[v], RxAuth(s, f, nonce).entries[v])
  {
    assert Shape(s);
    hide Stations, AuthReq, AuthConfirm;
    if f.seqNo == 1 && (f.alg == AUTH_MODE_OPEN || f.alg == AUTH_MODE_KEY) {
      AuthReqLineage(s, f, nonce, v, a, b);
      AuthReqNoAssoc(s, f, nonce, v);
    } else if f.seqNo == 3 && f.alg == AUTH_MODE_KEY {
      AuthConfirmLineage(s, f, nonce, v, a, b);
      AuthConfirmNoAssoc(s, f, v);
    }
  }

  lemma AuthReqNoAssoc(s: Ap, f: AuthFrame, nonce: Challenge, v: nat)
    requires Stations(s) && v < MAX_LEN_OF_MAC_TABLE && (f.alg == AUTH_MODE_OPEN || f.alg == AUTH_MODE_KEY)
    ensures var g := AuthReq(s, f, nonce).entries[v];
            IsClient(g) && g.sst == Assoc ==> SameId(s.entries[v], g)
  {
    var c := FindBss(s.bss, f.addr1);
    if c < |s.bss| && f.devUp {
      var w0 := Lookup(s, f.addr2);
      RehomeGone(s, f.addr2, f.addr1);
      RehomeGood(s, w0, f.addr1);
      var (s1, w) := Rehome(s, w0, f.addr1);
      AuthReqAtLineage(s1, w, c, f, nonce, v);
      assert SameId(s.entries[v], s1.entries[v]) || !IsClient(s1.entries[v]);
      hide AuthReqAt, Good, Stations, Rehome;
    }
  }

  lemma AuthConfirmNoAssoc(s: Ap, f: AuthFrame, v: nat)
    requires Shape(s) && v < MAX_LEN_OF_MAC_TABLE
    ensures var g := AuthConfirm(s, f).entries[v];
            IsClient(g) && g.sst == Assoc ==> SameId(s.entries[v], g)
  {
    if f.wcid < MAX_LEN_OF_MAC_TABLE {
      RehomeGood(s, f.wcid, f.addr1);
      var (s1, w) := Rehome(s, f.wcid, f.addr1);
      DeleteSlotGood(s1, w);
      assert SameId(s.entries[v], s1.entries[v]) || !IsClient(s1.entries[v]);
      assert SameId(s1.entries[v], DeleteSlot(s1, w).entries[v]) || !IsClient(DeleteSlot(s1, w).entries[v]);
      hide Good, DeleteSlot;
    }
  }

  // A station to which a challenge has just been issued is not admitted.
  lemma IssueNotAdmitted(s: Ap, e: Event, a: Mac, v: nat, b: nat)
    requires Enabled(s, e) && Stations(s) && Issues(s, e, a) && v < MAX_LEN_OF_MAC_TABLE
    ensures !Admitted(Step(s, e), v, a, b)
    ensures exists u :: 0 <= u < MAX_LEN_OF_MAC_TABLE && IsClient(Step(s, e).entries[u]) && Step(s, e).entries[u].addr == a
  {
    hide Ensure, DeleteSlot, Welcome, Counted;
    var f := e.frame;
    var t := Step(s, e);
    StepStations(s, e);
    RehomeGone(s, a, f.addr1);
    var (s1, w) := Rehome(s, Lookup(s, a), f.addr1);
    var c := FindBss(s.bss, f.addr1);
    var (s2, u) := Ensure(s1, w, a, c);
    EnsureFrame(s1, w, a, c, u);
    assert t == SetSst(s2, u, NotAuth).(auxAddr := a, auxChallenge := e.nonce);
    assert UniqueAddrs(t);
    assert IsClient(t.entries[u]) && t.entries[u].addr == a;
  }

  // The address and authentication mode of a BSS do not change, and its access control list stays well-formed.
  ghost predicate SameMode(x: Bss, y: Bss) {
    && y.authMode == x.authMode && y.bssid == x.bssid
    && (AclList.Fits(x.acl) ==> AclList.Fits(y.acl)) && (AclList.Sound(x.acl) ==> AclList.Sound(y.acl))
  }

  ghost predicate SameModes(s: Ap, t: Ap) {
    |t.bss| == |s.bss| && forall b :: 0 <= b < |s.bss| ==> SameMode(s.bss[b], t.bss[b])
  }

  lemma GoodModes(s: Ap, t: Ap)
    requires Good(s, t)
    ensures SameModes(s, t)
  {
    assert forall b :: 0 <= b < |s.bss| ==> SameConfig(s.bss[b], t.bss[b]);
  }

  lemma DeleteSlotModes(s: Ap, w: nat)
    requires Shape(s)
    ensures SameModes(s, DeleteSlot(s, w))
  {
    DeleteSlotGood(s, w);
    hide DeleteSlot;
    GoodModes(s, DeleteSlot(s, w));
  }

  lemma EnsureModes(s: Ap, w: nat, addr: Mac, b: nat)
    requires Shape(s) && w <= |s.entries| && b < |s.bss|
    ensures SameModes(s, Ensure(s, w, addr, b).0)
  {
  }

  lemma AuthReqAtModes(s: Ap, w: nat, b: nat, f: AuthFrame, nonce: Challenge)
    requires Shape(s) && w <= |s.entries| && b < |s.bss|
    ensures SameModes(s, AuthReqAt(s, w, b, f, nonce))
  {
    DeleteSlotModes(s, w);
    EnsureModes(s, w, f.addr2, b);
    hide Ensure, DeleteSlot, AclPasses, SetSst;
  }

  lemma RehomeModes(s: Ap, w: nat, addr1: Mac)
    requires Shape(s) && w <= |s.entries|
    ensures SameModes(s, Rehome(s, w, addr1).0)
  {
    DeleteSlotModes(s, w);
    hide DeleteSlot;
  }

  lemma AuthReqModes(s: Ap, f: AuthFrame, nonce: Challenge)
    requires Shape(s)
    ensures SameModes(s, AuthReq(s, f, nonce))
  {
    hide AuthReqAt, Rehome;
    var b := FindBss(s.bss, f.addr1);
    if b < |s.bss| {
      RehomeModes(s, Lookup(s, f.addr2), f.addr1);
      var (s1, w) := Rehome(s, Lookup(s, f.addr2), f.addr1);
      AuthReqAtModes(s1, w, b, f, nonce);
    }
  }

  lemma AuthModes(s: Ap, f: AuthFrame, nonce: Challenge)
    requires Shape(s)
    ensures SameModes(s, RxAuth(s, f, nonce))
  {
    hide AuthReq, DeleteSlot, Rehome, SetSst, FindBss;
    AuthReqModes(s, f, nonce);
    if f.wcid < MAX_LEN_OF_MAC_TABLE {
      RehomeModes(s, f.wcid, f.addr1);
      var (s2, v) := Rehome(s, f.wcid, f.addr1);
      DeleteSlotModes(s2, v);
    }
  }

  lemma AclModes(s: Ap, c: nat, x: Bss)
    requires Shape(s) && c < |s.bss| && |x.timBitmaps| == WLAN_MAX_NUM_OF_TIM
    requires SameMode(s.bss[c], x)
    ensures SameModes(s, UpdateAcl(SetBss(s, c, x), c))
  {
    UpdateAclShrinks(SetBss(s, c, x), c, 0);
    GoodModes(SetBss(s, c, x), UpdateAclFrom(SetBss(s, c, x), c, 0));
  }

  // Every edit of a list keeps it sound.
  lemma ListEdits(acl: seq<Mac>, addrs: seq<Mac>)
    requires AclList.Fits(acl)
    ensures AclList.Fits(AclList.Add(acl, addrs)) && AclList.Fits(AclList.Del(acl, addrs))
    ensures AclList.Sound(acl) ==> AclList.Sound(AclList.Add(acl, addrs)) && AclList.Sound(AclList.Del(acl, addrs))
  {
    AclList.AddSound(acl, addrs);
    AclList.DelIsFilter(acl, addrs);
    AclList.WithoutMembers(acl, addrs);
  }

  lemma EditModes(x: Bss, addrs: seq<Mac>)
    ensures SameMode(x, x.(acl := AclList.Add(x.acl, addrs))) && SameMode(x, x.(acl := AclList.Del(x.acl, addrs)))
    ensures SameMode(x, x.(acl := [])) && forall policy :: SameMode(x, x.(policy := policy))
  {
    if AclList.Fits(x.acl) {
      ListEdits(x.acl, addrs);
    }
  }

  lemma SelfModes(s: Ap)
    ensures SameModes(s, s)
  {
  }

  lemma StepModes(s: Ap, e: Event)
    requires Enabled(s, e)
    ensures SameModes(s, Step(s, e))
  {
    hide RxAuth, AssocReq, UpdateAcl, AclList.Fits, AclList.Sound, AclList.Add, AclList.Del, SameMode;
    if Plain(e) {
      PlainGood(s, e);
      hide Step;
      GoodModes(s, Step(s, e));
    } else {
      SelfModes(s);
      match e
      case EvAuth(f, nonce) => AuthModes(s, f, nonce);
      case EvAssoc(f) => AssocModes(s, f);
      case EvPolicy(c, policy) => EditModes(s.bss[c], []); AclModes(s, c, s.bss[c].(policy := policy));
      case EvAclAdd(c, addrs) => EditModes(s.bss[c], addrs); AclModes(s, c, s.bss[c].(acl := AclList.Add(s.bss[c].acl, addrs)));
      case EvAclDel(c, addrs) => EditModes(s.bss[c], addrs); AclModes(s, c, s.bss[c].(acl := AclList.Del(s.bss[c].acl, addrs)));
      case EvAclClear(c) => EditModes(s.bss[c], []); AclModes(s, c, s.bss[c].(acl := []));
    }
  }

  lemma AssocModes(s: Ap, f: AssocFrame)
    requires Shape(s)
    ensures SameModes(s, AssocReq(s, f))
  {
  }

  // ---------- runs and their prefixes ----------

  lemma {:induction false} RunPrefix(s: Ap, es: seq<Event>, k: nat)
    requires Run(s, es) && k <= |es|
    ensures Run(s, es[..k])
    decreases es
  {
    if k > 0 {
      RunPrefix(Step(s, es[0]), es[1..], k - 1);
      assert es[..k][1..] == es[1..][..k - 1];
    }
  }

  // The state before event `k`.
  function At(s: Ap, es: seq<Event>, k: nat): (r: Ap)
    requires Run(s, es) && k <= |es|
    ensures Shape(r)
  {
    RunPrefix(s, es, k);
    Exec(s, es[..k])
  }

  lemma {:induction false} AtStep(s: Ap, es: seq<Event>, k: nat)
    requires Run(s, es) && k < |es|
    ensures Enabled(At(s, es, k), es[k]) && At(s, es, k + 1) == Step(At(s, es, k), es[k])
    decreases es
  {
    if k == 0 {
      assert es[..1] == [es[0]] && es[..0] == [];
      assert es[..1][1..] == [];
      assert Exec(Step(s, es[0]), []) == Step(s, es[0]);
    } else {
      AtStep(Step(s, es[0]), es[1..], k - 1);
      assert es[..k][1..] == es[1..][..k - 1];
      assert es[..k + 1][1..] == es[1..][..k];
    }
  }

  lemma AtStations(s: Ap, es: seq<Event>, k: nat)
    requires Init(s) && Run(s, es) && k <= |es|
    ensures Stations(At(s, es, k))
  {
    InitStations(s);
    RunPrefix(s, es, k);
    RunStations(s, es[..k]);
  }

  lemma {:induction false} ModesConstant(s: Ap, es: seq<Event>, k: nat)
    requires Run(s, es) && k <= |es|
    ensures SameModes(s, At(s, es, k))
  {
    hide Step, Enabled;
    if k > 0 {
      ModesConstant(s, es, k - 1);
      AtStep(s, es, k - 1);
      StepModes(At(s, es, k - 1), es[k - 1]);
    }
  }

  /** After any run, whatever the commands are given, an access control list fits its array and is free of duplicates if
      it was so at first. */
  lemma ListsSound(s: Ap, es: seq<Event>, b: nat)
    requires Run(s, es) && b < |s.bss| && AclList.Fits(s.bss[b].acl)
    ensures |Exec(s, es).bss| == |s.bss| && AclList.Fits(Exec(s, es).bss[b].acl)
    ensures AclList.Distinct(s.bss[b].acl) ==> AclList.Distinct(Exec(s, es).bss[b].acl)
  {
    ModesConstant(s, es, |es|);
    assert es[..|es|] == es;
    assert SameMode(s.bss[b], At(s, es, |es|).bss[b]);
  }

  // The challenge most recently drawn for the station with address `a` in the first `n` events.
  function LastIssued(s: Ap, es: seq<Event>, n: nat, a: Mac): Option<Challenge>
    requires Run(s, es) && n <= |es|
  {
    if n == 0 then None
    else if Issues(At(s, es, n - 1), es[n - 1], a) then Some(es[n - 1].nonce)
    else LastIssued(s, es, n - 1, a)
  }

  // ---------- whole runs ----------

  // Event `k` let the station in, and it has stayed admitted until event `n`.
  predicate AdmittedSince(s: Ap, es: seq<Event>, k: nat, n: nat, w: nat, a: Mac, b: nat)
    requires Run(s, es) && k < n <= |es| && w < MAX_LEN_OF_MAC_TABLE
  {
    && Grants(At(s, es, k), es[k], w, a, b)
    && (forall j :: k < j <= n ==> Admitted(At(s, es, j), w, a, b))
  }

  /** Over every run from an initial state, a station that is authenticated or associated was let in by a grant
      of its own BSS, and has stayed in the table, in the same slot and BSS, authenticated or associated, ever
      since. */
  lemma {:induction false} WasAuthenticated(s: Ap, es: seq<Event>, n: nat, w: nat, a: Mac, b: nat)
    requires Init(s) && Run(s, es) && n <= |es| && w < MAX_LEN_OF_MAC_TABLE
    requires Admitted(At(s, es, n), w, a, b)
    ensures exists k :: 0 <= k < n && AdmittedSince(s, es, k, n, w, a, b)
  {
    hide Admitted, Grants, At, Stations, Init, Run, AdmittedSince;
    if n == 0 {
      NobodyAtFirst(s, es, w, a, b);
      assert false;
    } else {
      AdmittedBefore(s, es, n, w, a, b);
      if Admitted(At(s, es, n - 1), w, a, b) {
        WasAuthenticated(s, es, n - 1, w, a, b);
        var k :| 0 <= k < n - 1 && AdmittedSince(s, es, k, n - 1, w, a, b);
        LongerSince(s, es, k, n, w, a, b);
      } else {
        JustSince(s, es, n, w, a, b);
      }
    }
  }

  lemma LongerSince(s: Ap, es: seq<Event>, k: nat, n: nat, w: nat, a: Mac, b: nat)
    requires Run(s, es) && k < n - 1 < n <= |es| && w < MAX_LEN_OF_MAC_TABLE
    requires AdmittedSince(s, es, k, n - 1, w, a, b) && Admitted(At(s, es, n), w, a, b)
    ensures AdmittedSince(s, es, k, n, w, a, b)
  {
    hide Admitted, Grants, At, Run;
  }

  lemma JustSince(s: Ap, es: seq<Event>, n: nat, w: nat, a: Mac, b: nat)
    requires Run(s, es) && 1 <= n <= |es| && w < MAX_LEN_OF_MAC_TABLE
    requires Grants(At(s, es, n - 1), es[n - 1], w, a, b) && Admitted(At(s, es, n), w, a, b)
    ensures AdmittedSince(s, es, n - 1, n, w, a, b)
  {
    hide Admitted, Grants, At, Run;
  }

  lemma AdmittedBefore(s: Ap, es: seq<Event>, n: nat, w: nat, a: Mac, b: nat)
    requires Init(s) && Run(s, es) && 1 <= n <= |es| && w < MAX_LEN_OF_MAC_TABLE
    requires Admitted(At(s, es, n), w, a, b)
    ensures var s' := At(s, es, n - 1);
            && (Admitted(s', w, a, b) || Grants(s', es[n - 1], w, a, b))
            && (At(s, es, n).entries[w].sst == Assoc ==>
                  Admitted(s', w, a, b) && (s'.entries[w].sst == Assoc || AcceptsAssoc(s', es[n - 1], w, a)))
  {
    AtStep(s, es, n - 1);
    AtStations(s, es, n - 1);
    hide Admitted, Grants, AcceptsAssoc, At, Stations, Step, Enabled;
    StepLineage(At(s, es, n - 1), es[n - 1], w, a, b);
  }

  lemma NobodyAtFirst(s: Ap, es: seq<Event>, w: nat, a: Mac, b: nat)
    requires Init(s) && Run(s, es) && w < MAX_LEN_OF_MAC_TABLE
    ensures !Admitted(At(s, es, 0), w, a, b)
  {
  }

  // Event `m` was the station's association request, which succeeded while it was admitted, and the station has been
  // associated until event `n`.
  predicate AssociatedSince(s: Ap, es: seq<Event>, m: nat, n: nat, w: nat, a: Mac, b: nat)
    requires Run(s, es) && m < n <= |es| && w < MAX_LEN_OF_MAC_TABLE
  {
    && Admitted(At(s, es, m), w, a, b) && AcceptsAssoc(At(s, es, m), es[m], w, a)
    && (forall j :: m < j <= n ==> At(s, es, j).entries[w].sst == Assoc)
  }

  /** An associated station has, after being let in, sent an association request that was accepted, and has been associated
      ever since. */
  lemma {:induction false} WasAssociated(s: Ap, es: seq<Event>, n: nat, w: nat, a: Mac, b: nat)
    requires Init(s) && Run(s, es) && n <= |es| && w < MAX_LEN_OF_MAC_TABLE
    requires Admitted(At(s, es, n), w, a, b) && At(s, es, n).entries[w].sst == Assoc
    ensures exists k, m :: 0 <= k < m < n && AdmittedSince(s, es, k, n, w, a, b) && AssociatedSince(s, es, m, n, w, a, b)
  {
    hide Admitted, Grants, At, Init, Run, AcceptsAssoc, AdmittedSince, AssociatedSince;
    if n == 0 {
      NobodyAtFirst(s, es, w, a, b);
    } else {
      AdmittedBefore(s, es, n, w, a, b);
      if At(s, es, n - 1).entries[w].sst == Assoc {
        WasAssociated(s, es, n - 1, w, a, b);
        var k, m :| 0 <= k < m < n - 1 && AdmittedSince(s, es, k, n - 1, w, a, b) && AssociatedSince(s, es, m, n - 1, w, a, b);
        LongerSince(s, es, k, n, w, a, b);
        LongerAssociated(s, es, m, n, w, a, b);
      } else {
        WasAuthenticated(s, es, n - 1, w, a, b);
        var k :| 0 <= k < n - 1 && AdmittedSince(s, es, k, n - 1, w, a, b);
        LongerSince(s, es, k, n, w, a, b);
        JustAssociated(s, es, n, w, a, b);
      }
    }
  }

  lemma LongerAssociated(s: Ap, es: seq<Event>, m: nat, n: nat, w: nat, a: Mac, b: nat)
    requires Run(s, es) && m < n - 1 < n <= |es| && w < MAX_LEN_OF_MAC_TABLE
    requires AssociatedSince(s, es, m, n - 1, w, a, b) && At(s, es, n).entries[w].sst == Assoc
    ensures AssociatedSince(s, es, m, n, w, a, b)
  {
    hide Admitted, At, Run, AcceptsAssoc;
  }

  lemma JustAssociated(s: Ap, es: seq<Event>, n: nat, w: nat, a: Mac, b: nat)
    requires Run(s, es) && 1 <= n <= |es| && w < MAX_LEN_OF_MAC_TABLE && At(s, es, n).entries[w].sst == Assoc
    requires Admitted(At(s, es, n - 1), w, a, b) && AcceptsAssoc(At(s, es, n - 1), es[n - 1], w, a)
    ensures AssociatedSince(s, es, n - 1, n, w, a, b)
  {
    hide Admitted, At, Run, AcceptsAssoc;
  }

  // The one stored challenge is the last one issued to the station it is stored for.
  lemma {:induction false} StoredIsLast(s: Ap, es: seq<Event>, n: nat, a: Mac)
    requires Run(s, es) && n <= |es|
    requires LastIssued(s, es, n, a) != None && At(s, es, n).auxAddr == a
    ensures LastIssued(s, es, n, a) == Some(At(s, es, n).auxChallenge)
  {
    hide Issues, At, Run, Step, Enabled;
    if n > 0 {
      AtStep(s, es, n - 1);
      AuxStep(At(s, es, n - 1), es[n - 1]);
      var s' := At(s, es, n - 1);
      if Issues(s', es[n - 1], a) {
        IssuesAddr(s', es[n - 1], a);
      } else {
        StoredOther(s, es, n, a);
        StoredIsLast(s, es, n - 1, a);
      }
    }
  }

  lemma IssuesAddr(s: Ap, e: Event, a: Mac)
    requires Shape(s) && Issues(s, e, a)
    ensures e.EvAuth? && e.frame.addr2 == a && e.frame.seqNo == 1 && e.frame.alg == AUTH_MODE_KEY
  {
  }

  // If the event issued no challenge to `a` but `a` is the stored address, it issued none at all.
  lemma StoredOther(s: Ap, es: seq<Event>, n: nat, a: Mac)
    requires Run(s, es) && 1 <= n <= |es| && At(s, es, n).auxAddr == a
    requires !Issues(At(s, es, n - 1), es[n - 1], a)
    ensures var s' := At(s, es, n - 1); s'.auxAddr == a && At(s, es, n).auxChallenge == s'.auxChallenge
  {
    hide Issues, At, Run, Step, Enabled;
    AtStep(s, es, n - 1);
    AuxStep(At(s, es, n - 1), es[n - 1]);
  }

  // ---------- shared-key authentication ----------

  // The station with address `a` is in slot `w` of BSS `b`.
  predicate Present(s: Ap, w: nat, a: Mac, b: nat)
    requires Shape(s) && w < MAX_LEN_OF_MAC_TABLE
  {
    IsClient(s.entries[w]) && s.entries[w].addr == a && s.entries[w].apidx == b
  }

  // A station enters the table either in open-system authentication or by being challenged.
  lemma AuthReqAtEnters(s: Ap, w: nat, c: nat, f: AuthFrame, nonce: Challenge, v: nat, a: Mac, b: nat)
    requires Shape(s) && w <= |s.entries| && c < |s.bss| && v < MAX_LEN_OF_MAC_TABLE
    requires Present(AuthReqAt(s, w, c, f, nonce), v, a, b) && !Present(s, v, a, b)
    ensures a == f.addr2 && b == c && (AcceptsOpen(s.bss[c]) || Challenged(s, w, c, f))
  {
    hide AclPasses, Ensure, DeleteSlot;
    if !AclPasses(s.bss[c], f.addr2) {
      DeleteSlotPresent(s, w, v);
    } else if f.alg == AUTH_MODE_OPEN && AcceptsOpen(s.bss[c]) {
      EnsureFrame(s, w, f.addr2, c, v);
    } else if f.alg == AUTH_MODE_KEY && AcceptsKey(s.bss[c]) {
      EnsureFrame(s, w, f.addr2, c, v);
    } else {
      DeleteSlotPresent(s, w, v);
    }
  }

  lemma DeleteSlotPresent(s: Ap, w: nat, v: nat)
    requires Shape(s) && v < MAX_LEN_OF_MAC_TABLE
    ensures SameId(s.entries[v], DeleteSlot(s, w).entries[v]) || !IsClient(DeleteSlot(s, w).entries[v])
  {
    DeleteSlotGood(s, w);
    hide DeleteSlot;
    GoodPresent(s, DeleteSlot(s, w), v);
  }

  lemma AuthReqEnters(s: Ap, f: AuthFrame, nonce: Challenge, v: nat, a: Mac, b: nat)
    requires Stations(s) && v < MAX_LEN_OF_MAC_TABLE && f.seqNo == 1
    requires Present(AuthReq(s, f, nonce), v, a, b) && !Present(s, v, a, b)
    requires b < |s.bss| && s.bss[b].authMode == AuthShared
    ensures Issues(s, EvAuth(f, nonce), a)
  {
    assert Shape(s);
    hide AuthReqAt, Stations, Rehome, Challenged;
    var c := FindBss(s.bss, f.addr1);
    if c < |s.bss| && f.devUp {
      RehomeFacts(s, f, v, c);
      var (s1, w) := Rehome(s, Lookup(s, f.addr2), f.addr1);
      AuthReqAtEnters(s1, w, c, f, nonce, v, a, b);
    }
  }

  lemma AuthConfirmEnters(s: Ap, f: AuthFrame, v: nat, a: Mac, b: nat)
    requires Shape(s) && v < MAX_LEN_OF_MAC_TABLE && Present(AuthConfirm(s, f), v, a, b)
    ensures Present(s, v, a, b)
  {
    if f.wcid < MAX_LEN_OF_MAC_TABLE {
      RehomeGood(s, f.wcid, f.addr1);
      var (s1, w) := Rehome(s, f.wcid, f.addr1);
      DeleteSlotGood(s1, w);
      assert SameId(s.entries[v], s1.entries[v]) || !IsClient(s1.entries[v]);
      assert SameId(s1.entries[v], DeleteSlot(s1, w).entries[v]) || !IsClient(DeleteSlot(s1, w).entries[v]);
      hide Good, DeleteSlot;
    }
  }

  lemma AclEnters(s: Ap, c: nat, x: Bss, v: nat, a: Mac, b: nat)
    requires Shape(s) && c < |s.bss| && |x.timBitmaps| == WLAN_MAX_NUM_OF_TIM && v < MAX_LEN_OF_MAC_TABLE
    requires Present(UpdateAcl(SetBss(s, c, x), c), v, a, b)
    ensures Present(s, v, a, b)
  {
    UpdateAclShrinks(SetBss(s, c, x), c, 0);
    GoodPresent(SetBss(s, c, x), UpdateAclFrom(SetBss(s, c, x), c, 0), v);
  }

  lemma GoodPresent(s: Ap, t: Ap, v: nat)
    requires Good(s, t) && v < MAX_LEN_OF_MAC_TABLE
    ensures SameId(s.entries[v], t.entries[v]) || !IsClient(t.entries[v])
  {
  }

  // In a shared-key BSS a station enters the table only by being challenged.
  lemma StepEnters(s: Ap, e: Event, v: nat, a: Mac, b: nat)
    requires Enabled(s, e) && Stations(s) && v < MAX_LEN_OF_MAC_TABLE
    requires Present(Step(s, e), v, a, b) && !Present(s, v, a, b)
    requires b < |s.bss| && s.bss[b].authMode == AuthShared
    ensures Issues(s, e, a)
  {
    assert Shape(s);
    hide Stations, AuthReq, AuthConfirm, AssocReq, UpdateAcl, Issues;
    if Plain(e) {
      PlainGood(s, e);
      hide Step;
      GoodPresent(s, Step(s, e), v);
    } else {
      match e
      case EvAuth(f, nonce) =>
        if f.seqNo == 1 {
          AuthReqEnters(s, f, nonce, v, a, b);
        } else if f.seqNo == 3 && f.alg == AUTH_MODE_KEY {
          AuthConfirmEnters(s, f, v, a, b);
        }
      case EvAssoc(f) => AssocLineage(s, f, v);
      case EvPolicy(c, policy) => if policy <= 2 { AclEnters(s, c, s.bss[c].(policy := policy), v, a, b); }
      case EvAclAdd(c, addrs) =>
        if !AclList.AddRefused(s.bss[c].acl) { AclEnters(s, c, s.bss[c].(acl := AclList.Add(s.bss[c].acl, addrs)), v, a, b); }
      case EvAclDel(c, addrs) => AclEnters(s, c, s.bss[c].(acl := AclList.Del(s.bss[c].acl, addrs)), v, a, b);
      case EvAclClear(c) => if s.bss[c].acl != [] { AclEnters(s, c, s.bss[c].(acl := []), v, a, b); }
    }
  }

  lemma {:induction false} PresentWasChallenged(s: Ap, es: seq<Event>, n: nat, w: nat, a: Mac, b: nat)
    requires Init(s) && Run(s, es) && n <= |es| && w < MAX_LEN_OF_MAC_TABLE
    requires Present(At(s, es, n), w, a, b) && b < |s.bss| && s.bss[b].authMode == AuthShared
    ensures LastIssued(s, es, n, a) != None
  {
    hide Issues, Present, At, Init, Run;
    if n == 0 {
      NotPresentAtFirst(s, es, w, a, b);
      assert false;
    } else if Present(At(s, es, n - 1), w, a, b) {
      PresentWasChallenged(s, es, n - 1, w, a, b);
    } else {
      EntersAt(s, es, n - 1, w, a, b);
    }
  }

  lemma NotPresentAtFirst(s: Ap, es: seq<Event>, w: nat, a: Mac, b: nat)
    requires Init(s) && Run(s, es) && w < MAX_LEN_OF_MAC_TABLE
    ensures !Present(At(s, es, 0), w, a, b)
  {
  }

  lemma EntersAt(s: Ap, es: seq<Event>, n: nat, w: nat, a: Mac, b: nat)
    requires Init(s) && Run(s, es) && n < |es| && w < MAX_LEN_OF_MAC_TABLE
    requires Present(At(s, es, n + 1), w, a, b) && !Present(At(s, es, n), w, a, b)
    requires b < |s.bss| && s.bss[b].authMode == AuthShared
    ensures Issues(At(s, es, n), es[n], a)
  {
    AtStep(s, es, n);
    AtStations(s, es, n);
    ModesConstant(s, es, n);
    hide Issues, Present, At, Step, Enabled, Stations;
    StepEnters(At(s, es, n), es[n], w, a, b);
  }

  // While a station stays admitted no new challenge is issued to it.
  lemma {:induction false} NoIssueSince(s: Ap, es: seq<Event>, k: nat, n: nat, w: nat, a: Mac, b: nat)
    requires Init(s) && Run(s, es) && k < n <= |es| && w < MAX_LEN_OF_MAC_TABLE
    requires AdmittedSince(s, es, k, n, w, a, b)
    ensures LastIssued(s, es, n, a) == LastIssued(s, es, k, a)
  {
    hide Issues, Admitted, Grants, At, Run, Init;
    assert Admitted(At(s, es, n), w, a, b);
    NoIssueAt(s, es, n - 1, w, a, b);
    if k < n - 1 {
      NoIssueSince(s, es, k, n - 1, w, a, b);
    }
  }

  lemma NoIssueAt(s: Ap, es: seq<Event>, j: nat, w: nat, a: Mac, b: nat)
    requires Init(s) && Run(s, es) && j < |es| && w < MAX_LEN_OF_MAC_TABLE
    requires Admitted(At(s, es, j + 1), w, a, b)
    ensures !Issues(At(s, es, j), es[j], a)
  {
    AtStep(s, es, j);
    AtStations(s, es, j);
    hide Issues, Admitted, At, Step, Enabled, Stations;
    if Issues(At(s, es, j), es[j], a) {
      IssueNotAdmitted(At(s, es, j), es[j], a, w, b);
      assert false;
    }
  }

  // Before a confirmation that lets the station in, the station was in the table.
  lemma ConfirmedWasPresent(s: Ap, e: Event, w: nat, a: Mac, b: nat)
    requires Enabled(s, e) && w < MAX_LEN_OF_MAC_TABLE && KeyGrant(s, e, w, a, b)
    requires Admitted(Step(s, e), w, a, b)
    ensures Present(s, w, a, b)
  {
    hide AuthConfirm;
    AuthConfirmEnters(s, e.frame, w, a, b);
  }

  /** Over every run, a station that is authenticated or associated in a BSS that accepts shared-key
      authentication only has echoed, in a WEP frame, the challenge that was last issued to it, although
      the access point stores one challenge for all stations; no challenge has been issued to it since. */
  lemma SharedKeyEchoed(s: Ap, es: seq<Event>, n: nat, w: nat, a: Mac, b: nat)
    requires Init(s) && Run(s, es) && n <= |es| && w < MAX_LEN_OF_MAC_TABLE
    requires Admitted(At(s, es, n), w, a, b) && b < |s.bss| && s.bss[b].authMode == AuthShared
    ensures exists k :: 0 <= k < n && AdmittedSince(s, es, k, n, w, a, b)
              && es[k].EvAuth? && es[k].frame.addr2 == a && es[k].frame.wep
              && LastIssued(s, es, n, a) == Some(es[k].frame.text)
  {
    hide Admitted, At, Issues;
    WasAuthenticated(s, es, n, w, a, b);
    var k :| 0 <= k < n && AdmittedSince(s, es, k, n, w, a, b);
    ModesConstant(s, es, k);
    AtStep(s, es, k);
    assert Admitted(At(s, es, k + 1), w, a, b);
    ConfirmedWasPresent(At(s, es, k), es[k], w, a, b);
    PresentWasChallenged(s, es, k, w, a, b);
    StoredIsLast(s, es, k, a);
    NoIssueSince(s, es, k, n, w, a, b);
  }

  // ---------- the class filter ----------

  /** In every reachable state, a ToDS data frame passes the class filter if and only if its sender is in the
      table and associated; it then was let in, sent an association request that was accepted, and has been associated ever
      since. */
  lemma ClassFilterSound(s: Ap, es: seq<Event>, w: nat, a: Mac)
    requires Init(s) && Run(s, es)
    requires FrameFrom(At(s, es, |es|), w, a)
    ensures ClassFilterPasses(At(s, es, |es|), w) <==>
              w < MAX_LEN_OF_MAC_TABLE && Admitted(At(s, es, |es|), w, a, At(s, es, |es|).entries[w].apidx)
              && At(s, es, |es|).entries[w].sst == Assoc
    ensures ClassFilterPasses(At(s, es, |es|), w) ==>
              var b := At(s, es, |es|).entries[w].apidx;
              exists k, m :: 0 <= k < m < |es| && AdmittedSince(s, es, k, |es|, w, a, b) && AssociatedSince(s, es, m, |es|, w, a, b)
  {
    hide At, AdmittedSince, AssociatedSince;
    var t := At(s, es, |es|);
    if ClassFilterPasses(t, w) {
      WasAssociated(s, es, |es|, w, a, t.entries[w].apidx);
    }
  }

  /** The filter looks at the state of the slot only.  Deleting a station leaves that state behind, so that
      frames reported for the freed slot would pass exactly if the station was associated; the guarantee above
      needs the hardware to report no freed slot. */
  lemma FreedSlotPasses(s: Ap, w: nat)
    requires Shape(s) && w < MAX_LEN_OF_MAC_TABLE
    ensures ClassFilterPasses(DeleteSlot(s, w), w) <==> s.entries[w].sst == Assoc
    ensures !IsClient(DeleteSlot(s, w).entries[w])
  {
    DeleteFrame(s, w);
    hide Good;
  }
}
