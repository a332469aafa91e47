/** What the frames of a station bring about, in every reachable state: exactly when it is let in, challenged, associated
    or removed, and that nothing happens to the other stations. */
module Outcomes {
  import opened Types
  import opened MacTable
  import opened Steps
  import opened Membership
  import opened AuthSafety
  import opened DeliveryOrder
  import AclList

  // ---------- the state seen from outside ----------

  // A station with address `a` is in slot `w` of BSS `b`, in state `sst`.
  predicate In(s: Ap, w: nat, a: Mac, b: nat, sst: Sst) {
    w < |s.entries| && s.entries[w].kind == EntryClient && s.entries[w].addr == a && s.entries[w].apidx == b && s.entries[w].sst == sst
  }

  predicate Of(e: Entry, a: Mac, b: nat) {
    e.kind == EntryClient && e.addr == a && e.apidx == b
  }

  // What the table keeps of a station that has just come: it is awake, nothing is buffered for it, its port is closed, and it
  // has five seconds to associate.
  predicate Newcomer(e: Entry, timeout: nat) {
    && e.psMode == PwrActive && e.psQueue == [] && e.psQIdleCount == 0 && !e.portSecured && !e.ralinkChipset
    && e.noDataIdleCount == 0 && e.continueTxFailCnt == 0 && e.stationKeepAliveCount == 0
    && e.staIdleTimeout == timeout && e.assocDeadLine == 5
  }

  // No station has address `a`.
  predicate Gone(s: Ap, a: Mac) {
    forall j :: 0 <= j < |s.entries| && s.entries[j].kind == EntryClient ==> s.entries[j].addr != a
  }

  // Nothing happens to the stations with other addresses.
  predicate OthersKept(s: Ap, t: Ap, a: Mac) {
    && |t.entries| == |s.entries|
    && forall j :: 0 <= j < |s.entries| && s.entries[j].kind == EntryClient && s.entries[j].addr != a ==> t.entries[j] == s.entries[j]
  }

  // The address is admitted by a list of the given policy: 0 is open, 1 lets in who is listed, 2 keeps out who is listed.
  predicate Listed(policy: nat, acl: seq<Mac>, a: Mac) {
    policy == 0 || (policy == 1 && a in acl) || (policy == 2 && a !in acl)
  }

  // BSS `b` is the first with address `bssid`.
  predicate FirstBss(s: Ap, b: nat, bssid: Mac) {
    b < |s.bss| && s.bss[b].bssid == bssid && forall c :: 0 <= c < b ==> s.bss[c].bssid != bssid
  }

  // The access control list admits the sender and the authentication mode of the BSS goes with the algorithm.
  predicate Answers(x: Bss, f: AuthFrame) {
    && Listed(x.policy, x.acl, f.addr2)
    && (if f.alg == 0 then x.authMode != AuthShared else x.authMode == AuthShared || x.authMode == AuthAutoSwitch)
  }

  // The sender has a slot in BSS `b` or can get one: the BSS is not full, and the table has a vacancy unless the sender gives
  // up its slot in another BSS.
  predicate HasPlace(s: Ap, a: Mac, b: nat)
    requires b < |s.bss|
  {
    || (exists w :: 0 <= w < |s.entries| && s.entries[w].kind == EntryClient && s.entries[w].addr == a && s.entries[w].apidx == b)
    || ((s.bss[b].maxStaNum == 0 || s.bss[b].staCount < s.bss[b].maxStaNum) && (!Gone(s, a) || s.entryClientCount < 31))
  }

  // ---------- vacancies ----------

  lemma {:induction false} FullTable(entries: seq<Entry>, n: nat)
    requires 1 <= n <= |entries| && entries[0].kind == EntryNone
    requires forall i :: 1 <= i < n ==> entries[i].kind == EntryClient
    ensures Clients(entries, n) == n - 1
  {
    if n > 1 {
      FullTable(entries, n - 1);
    }
  }

  lemma {:induction false} VacantTable(entries: seq<Entry>, n: nat, v: nat)
    requires 1 <= v < |entries| && 1 <= n <= |entries| && entries[0].kind == EntryNone && entries[v].kind == EntryNone
    ensures Clients(entries, n) <= n - (if v < n then 2 else 1)
  {
    if n > 1 {
      VacantTable(entries, n - 1, v);
    }
  }

  // Slot 0 is never taken, so that the table is full with 31 stations.
  lemma VacancyIff(s: Ap)
    requires Stations(s)
    ensures VacancyFrom(s.entries, 1) < |s.entries| <==> s.entryClientCount < 31
    ensures s.size == s.entryClientCount <= 31
  {
    assert Welcome(s, 0);
    var v := VacancyFrom(s.entries, 1);
    if v < |s.entries| {
      VacantTable(s.entries, |s.entries|, v);
    } else {
      forall i | 1 <= i < |s.entries|
        ensures s.entries[i].kind == EntryClient
      {
      }
      FullTable(s.entries, |s.entries|);
    }
  }

  // ---------- authentication ----------

  predicate RoomIn(s: Ap, b: nat)
    requires b < |s.bss|
  {
    (s.bss[b].maxStaNum == 0 || s.bss[b].staCount < s.bss[b].maxStaNum) && s.entryClientCount < 31
  }

  lemma InsertOutcome(s: Ap, a: Mac, b: nat)
    requires Stations(s) && b < |s.bss| && Gone(s, a)
    ensures var (t, v) := Insert(s, a, b);
            && OthersKept(s, t, a)
            && (if RoomIn(s, b) then v < |s.entries| && In(t, v, a, b, NotAuth) && Newcomer(t.entries[v], s.staIdleTimeout)
                else v == |s.entries| && Gone(t, a))
  {
    VacancyIff(s);
    hide Stations;
  }

  lemma LookupGone(s: Ap, a: Mac)
    ensures Lookup(s, a) <= |s.entries| && (Lookup(s, a) == |s.entries| <==> Gone(s, a))
    ensures Lookup(s, a) < |s.entries| ==> s.entries[Lookup(s, a)].kind == EntryClient && s.entries[Lookup(s, a)].addr == a
  {
  }

  lemma FirstFound(s: Ap, b: nat, bssid: Mac)
    ensures FirstBss(s, b, bssid) <==> b < |s.bss| && FindBss(s.bss, bssid) == b
    ensures FirstBss(s, b, bssid) ==> s.bss[b].bssid == bssid
  {
  }

  // The station leaves: its slot is free, one station less is counted and nothing else changes.
  lemma DeleteOutcome(s: Ap, w: nat)
    requires Stations(s) && w < |s.entries| && s.entries[w].kind == EntryClient
    ensures var t, a, c := DeleteSlot(s, w), s.entries[w].addr, s.entries[w].apidx;
            && Gone(t, a) && OthersKept(s, t, a) && t.entryClientCount == s.entryClientCount - 1
            && |t.bss| == |s.bss| && forall b :: 0 <= b < |s.bss| && b != c ==> t.bss[b] == s.bss[b]
  {
    assert Shape(s);
    hide Counted, Welcome;
  }

  // Before a request is answered, the sender is in the BSS it addresses or in none.
  lemma RehomeOutcome(s: Ap, a: Mac, b: nat, addr1: Mac)
    requires Stations(s) && FirstBss(s, b, addr1)
    ensures var (t, w) := Rehome(s, Lookup(s, a), addr1);
            && Stations(t) && OthersKept(s, t, a) && |t.bss| == |s.bss| && t.bss[b] == s.bss[b] && t.staIdleTimeout == s.staIdleTimeout
            && (if w < |t.entries| then t == s && s.entries[w].kind == EntryClient && s.entries[w].addr == a && s.entries[w].apidx == b
                else w == |t.entries| && Gone(t, a) && (RoomIn(t, b) <==> HasPlace(s, a, b))
                     && forall j :: 0 <= j < |s.entries| ==> !Of(s.entries[j], a, b))
  {
    hide OthersKept, Gone, RoomIn, HasPlace, FirstBss, DeleteSlot, FindBss, Lookup;
    FirstFound(s, b, addr1);
    LookupGone(s, a);
    var w0 := Lookup(s, a);
    RehomeGood(s, w0, addr1);
    SelfKept(s, a);
    if w0 < |s.entries| {
      assert Welcome(s, w0);
      if s.bss[s.entries[w0].apidx].bssid != addr1 {
        SentAway(s, w0, b);
      }
    } else {
      PlaceOfStranger(s, a, b);
    }
  }

  lemma SelfKept(s: Ap, a: Mac)
    ensures OthersKept(s, s, a)
  {
  }

  lemma PlaceOfStranger(s: Ap, a: Mac, b: nat)
    requires b < |s.bss| && Gone(s, a)
    ensures RoomIn(s, b) <==> HasPlace(s, a, b)
    ensures forall j :: 0 <= j < |s.entries| ==> !Of(s.entries[j], a, b)
  {
  }

  // A station of another BSS gives up its slot.
  lemma SentAway(s: Ap, w: nat, b: nat)
    requires Stations(s) && w < |s.entries| && s.entries[w].kind == EntryClient && b < |s.bss| && s.entries[w].apidx != b
    ensures var t, a := DeleteSlot(s, w), s.entries[w].addr;
            && Gone(t, a) && OthersKept(s, t, a) && |t.bss| == |s.bss| && t.bss[b] == s.bss[b] && t.staIdleTimeout == s.staIdleTimeout
            && (RoomIn(t, b) <==> HasPlace(s, a, b)) && forall j :: 0 <= j < |s.entries| ==> !Of(s.entries[j], a, b)
  {
    DeleteOutcome(s, w);
    VacancyIff(s);
    var a := s.entries[w].addr;
    forall j | 0 <= j < |s.entries| && s.entries[j].kind == EntryClient && s.entries[j].addr == a
      ensures j == w
    {
    }
    hide Stations;
  }

  lemma Listed3(x: Bss, a: Mac)
    requires x.policy <= 2
    ensures AclPasses(x, a) <==> Listed(x.policy, x.acl, a)
  {
  }

  // The answer to a request of a station that has the slot `w`, or none.
  lemma AnswerOutcome(s: Ap, w: nat, b: nat, f: AuthFrame, nonce: Challenge)
    requires Stations(s) && w <= |s.entries| && b < |s.bss| && (f.alg == 0 || f.alg == 1)
    requires if w < |s.entries| then s.entries[w].kind == EntryClient && s.entries[w].addr == f.addr2 && s.entries[w].apidx == b
             else Gone(s, f.addr2)
    ensures var t := AuthReqAt(s, w, b, f, nonce); var sst := if f.alg == 0 then Auth else NotAuth;
            && OthersKept(s, t, f.addr2)
            && (if Answers(s.bss[b], f) && (w < |s.entries| || RoomIn(s, b))
                then (exists v: nat :: v < |t.entries| && In(t, v, f.addr2, b, sst)
                                       && (if w < |s.entries| then v == w else Newcomer(t.entries[v], s.staIdleTimeout)))
                     && (f.alg == 1 ==> t.auxAddr == f.addr2 && t.auxChallenge == nonce)
                else Gone(t, f.addr2))
            && (f.alg == 0 || !Answers(s.bss[b], f) || Gone(t, f.addr2) ==> t.auxAddr == s.auxAddr && t.auxChallenge == s.auxChallenge)
  {
    Listed3(s.bss[b], f.addr2);
    hide Stations, AclPasses, Listed, DeleteSlot, Insert;
    var t := AuthReqAt(s, w, b, f, nonce);
    if w < |s.entries| {
      DeleteOutcome(s, w);
      if Answers(s.bss[b], f) {
        assert In(t, w, f.addr2, b, if f.alg == 0 then Auth else NotAuth);
      }
    } else if Answers(s.bss[b], f) {
      InsertOutcome(s, f.addr2, b);
      var (s1, v) := Insert(s, f.addr2, b);
      if RoomIn(s, b) {
        assert In(t, v, f.addr2, b, if f.alg == 0 then Auth else NotAuth) && Newcomer(t.entries[v], s.staIdleTimeout);
      }
    }
  }

  // The sender ends up in BSS `b` in state `sst`, in the slot it had there if it had one and as a newcomer if not.
  predicate LetIn(s: Ap, t: Ap, a: Mac, b: nat, sst: Sst) {
    && |t.entries| == |s.entries|
    && (exists v :: 0 <= v < |t.entries| && In(t, v, a, b, sst) && (Of(s.entries[v], a, b) || Newcomer(t.entries[v], s.staIdleTimeout)))
    && (forall w :: 0 <= w < |s.entries| && s.entries[w].kind == EntryClient && s.entries[w].addr == a && s.entries[w].apidx == b
          ==> In(t, w, a, b, sst))
  }

  lemma RequestAnswered(s: Ap, f: AuthFrame, nonce: Challenge, b: nat)
    requires Stations(s) && FirstBss(s, b, f.addr1) && f.devUp && (f.alg == 0 || f.alg == 1)
    ensures var t := AuthReq(s, f, nonce); var sst := if f.alg == 0 then Auth else NotAuth;
            && OthersKept(s, t, f.addr2)
            && (if Answers(s.bss[b], f) && HasPlace(s, f.addr2, b)
                then LetIn(s, t, f.addr2, b, sst) && (f.alg == 1 ==> t.auxAddr == f.addr2 && t.auxChallenge == nonce)
                else Gone(t, f.addr2))
  {
    hide Answers, RoomIn, HasPlace, AuthReqAt, FirstBss, FindBss, Lookup, OthersKept, LetIn, In, Newcomer, Gone;
    assert UniqueAddrs(s);
    FirstFound(s, b, f.addr1);
    RehomeOutcome(s, f.addr2, b, f.addr1);
    var (s1, w) := Rehome(s, Lookup(s, f.addr2), f.addr1);
    AnswerOutcome(s1, w, b, f, nonce);
    hide Stations, Rehome;
    var t := AuthReqAt(s1, w, b, f, nonce);
    OthersTrans(s, s1, t, f.addr2);
    PlaceInOwn(s, w, f.addr2, b);
    if Answers(s.bss[b], f) && HasPlace(s, f.addr2, b) {
      var sst := if f.alg == 0 then Auth else NotAuth;
      var v: nat :| v < |t.entries| && In(t, v, f.addr2, b, sst)
                    && (if w < |s1.entries| then v == w else Newcomer(t.entries[v], s1.staIdleTimeout));
      LetInAt(s, t, f.addr2, b, sst, w, v);
    }
  }

  lemma OthersTrans(s: Ap, t: Ap, u: Ap, a: Mac)
    requires OthersKept(s, t, a) && OthersKept(t, u, a)
    ensures OthersKept(s, u, a)
  {
  }

  lemma PlaceInOwn(s: Ap, w: nat, a: Mac, b: nat)
    requires Stations(s) && b < |s.bss|
    ensures w < |s.entries| && Of(s.entries[w], a, b) ==> HasPlace(s, a, b)
  {
  }

  lemma LetInAt(s: Ap, t: Ap, a: Mac, b: nat, sst: Sst, w: nat, v: nat)
    requires |t.entries| == |s.entries| && UniqueAddrs(s) && In(t, v, a, b, sst)
    requires if w < |s.entries| then v == w && Of(s.entries[w], a, b)
             else Newcomer(t.entries[v], s.staIdleTimeout) && forall j :: 0 <= j < |s.entries| ==> !Of(s.entries[j], a, b)
    ensures LetIn(s, t, a, b, sst)
  {
  }

  lemma Reached(s: Ap, es: seq<Event>)
    requires Init(s) && Run(s, es)
    ensures Stations(Exec(s, es))
  {
    InitStations(s);
    RunStations(s, es);
  }

  /** An authentication request, in every reachable state: if the addressed BSS answers the sender and the sender has a place there,
      the sender is in that BSS afterwards, authenticated if the request was for open system and challenged with the
      nonce that is now stored if it was for shared key; otherwise the sender is not in the table any more.  No other
      station notices.  A request to no BSS of the access point, or to one that is down, does nothing. */
  lemma RequestOutcome(s0: Ap, es: seq<Event>, f: AuthFrame, nonce: Challenge, b: nat)
    requires Init(s0) && Run(s0, es) && Enabled(Exec(s0, es), EvAuth(f, nonce)) && f.seqNo == 1
    ensures var s := Exec(s0, es); var t := Step(s, EvAuth(f, nonce)); var sst := if f.alg == 0 then Auth else NotAuth;
            && (FirstBss(s, b, f.addr1) && f.devUp && (f.alg == 0 || f.alg == 1) ==>
                  && OthersKept(s, t, f.addr2)
                  && (if Answers(s.bss[b], f) && HasPlace(s, f.addr2, b)
                      then LetIn(s, t, f.addr2, b, sst) && (f.alg == 1 ==> t.auxAddr == f.addr2 && t.auxChallenge == nonce)
                      else Gone(t, f.addr2)))
            && ((forall c :: 0 <= c < |s.bss| ==> s.bss[c].bssid != f.addr1) || !f.devUp || f.alg > 1 ==> t == s)
  {
    hide Answers, HasPlace, Exec, Run, Init, LetIn, OthersKept, Gone;
    Reached(s0, es);
    var s := Exec(s0, es);
    if FirstBss(s, b, f.addr1) && f.devUp && (f.alg == 0 || f.alg == 1) {
      RequestAnswered(s, f, nonce, b);
      hide AuthReq;
    }
  }

  /** Authentication frames with any other sequence number, or a confirmation of another algorithm than shared key, do nothing. */
  lemma OtherFramesIgnored(s: Ap, f: AuthFrame, nonce: Challenge)
    requires Enabled(s, EvAuth(f, nonce)) && f.seqNo != 1 && (f.seqNo != 3 || f.alg != 1)
    ensures Step(s, EvAuth(f, nonce)) == s
  {
    hide AuthReq, AuthConfirm;
  }

  // The sender, in the slot the hardware reports, answers the stored challenge to the BSS it is in.
  predicate Echoes(s: Ap, f: AuthFrame) {
    && f.wcid < |s.entries| && s.entries[f.wcid].apidx < |s.bss| && s.bss[s.entries[f.wcid].apidx].bssid == f.addr1
    && f.wep && f.addr2 == s.auxAddr && f.text == s.auxChallenge
  }

  /** A confirmation, in every reachable state: a station that echoes the stored challenge to its own BSS in a WEP frame is
      authenticated, and every other sender is removed from the table.  No other station notices, and a frame to no BSS of
      the access point, to one that is down or from a stranger does nothing. */
  lemma ConfirmOutcome(s0: Ap, es: seq<Event>, f: AuthFrame, nonce: Challenge)
    requires Init(s0) && Run(s0, es) && Enabled(Exec(s0, es), EvAuth(f, nonce)) && f.seqNo == 3 && f.alg == 1
    ensures var s := Exec(s0, es); var t := Step(s, EvAuth(f, nonce));
            if f.devUp && f.wcid < 32 && exists b :: 0 <= b < |s.bss| && s.bss[b].bssid == f.addr1
            then OthersKept(s, t, f.addr2)
                 && (if Echoes(s, f) then In(t, f.wcid, f.addr2, s.entries[f.wcid].apidx, Auth) else Gone(t, f.addr2))
            else t == s
  {
    hide Exec, Run, Init;
    Reached(s0, es);
    var s := Exec(s0, es);
    ConfirmAnswered(s, f);
    hide AuthConfirm, OthersKept, In, Gone, Stations;
  }

  lemma ConfirmAnswered(s: Ap, f: AuthFrame)
    requires Stations(s) && FrameFrom(s, f.wcid, f.addr2)
    ensures var t := AuthConfirm(s, f);
            if f.devUp && f.wcid < 32 && exists b :: 0 <= b < |s.bss| && s.bss[b].bssid == f.addr1
            then OthersKept(s, t, f.addr2)
                 && (if Echoes(s, f) then In(t, f.wcid, f.addr2, s.entries[f.wcid].apidx, Auth) else Gone(t, f.addr2))
            else t == s
  {
    assert Shape(s) && UniqueAddrs(s);
    if f.wcid < 32 {
      DeleteOutcome(s, f.wcid);
    }
    hide Stations, DeleteSlot;
  }

  // ---------- association ----------

  // The request of the station in slot `w` is one the access point goes along with.
  predicate Fitting(s: Ap, w: nat, g: AssocFrame) {
    && w < |s.entries| && s.entries[w].apidx < |s.bss|
    && g.sane && g.ssidOk && g.rateOk && g.rsnOk && (g.hasRsn || s.bss[s.entries[w].apidx].authMode != AuthWpa)
    && s.entries[w].sst != NotAuth
  }

  // The request gets past the checks that come before the silence counter is reset.
  predicate Heard(e: Entry, g: AssocFrame) {
    g.sane && g.ssidOk && g.rateOk && e.sst != NotAuth
  }

  /** An association request, in every reachable state: it associates its sender if and only if the request is fitting, in
      particular only if the sender has been authenticated; the station is then awake, has just been heard, and its port
      is open unless its BSS asks for more.  Otherwise it stays as it was,
      but for its silence if it has been authenticated.  No other station notices. */
  lemma AssociationOutcome(s0: Ap, es: seq<Event>, g: AssocFrame)
    requires Init(s0) && Run(s0, es)
    ensures var s := Exec(s0, es); var t := Step(s, EvAssoc(g));
            && OthersKept(s, t, g.addr2) && (Gone(s, g.addr2) ==> t == s)
            && forall w :: 0 <= w < |s.entries| && s.entries[w].kind == EntryClient && s.entries[w].addr == g.addr2 ==>
                 var e, n := s.entries[w], t.entries[w];
                 if Fitting(s, w, g)
                 then n == e.(sst := Assoc, psMode := PwrActive, noDataIdleCount := 0, ralinkChipset := g.ralink,
                              portSecured := s.bss[e.apidx].authMode != AuthWpa && !s.bss[e.apidx].ieee8021X)
                 else n == e.(noDataIdleCount := if Heard(e, g) then 0 else e.noDataIdleCount)
  {
    hide Exec, Run, Init;
    Reached(s0, es);
    AssocAnswered(Exec(s0, es), g);
    hide AssocReq, OthersKept, Gone, Fitting, Heard, Stations;
  }

  lemma AssocAnswered(s: Ap, g: AssocFrame)
    requires Stations(s)
    ensures var t := AssocReq(s, g);
            && OthersKept(s, t, g.addr2) && (Gone(s, g.addr2) ==> t == s)
            && forall w :: 0 <= w < |s.entries| && s.entries[w].kind == EntryClient && s.entries[w].addr == g.addr2 ==>
                 var e, n := s.entries[w], t.entries[w];
                 if Fitting(s, w, g)
                 then n == e.(sst := Assoc, psMode := PwrActive, noDataIdleCount := 0, ralinkChipset := g.ralink,
                              portSecured := s.bss[e.apidx].authMode != AuthWpa && !s.bss[e.apidx].ieee8021X)
                 else n == e.(noDataIdleCount := if Heard(e, g) then 0 else e.noDataIdleCount)
  {
    assert Shape(s) && UniqueAddrs(s);
    LookupGone(s, g.addr2);
    var w := Lookup(s, g.addr2);
    if w < |s.entries| {
      assert Welcome(s, w);
    }
    hide Counted, Lookup;
  }

  // ---------- a station joins ----------

  // The station's answer to the challenge, sent from the slot `w`.
  function Echo(f: AuthFrame, w: nat, nonce: Challenge): AuthFrame {
    AuthFrame(f.addr1, f.addr2, w, 1, 3, true, nonce, true)
  }

  // The frames of a station that joins: the request, the answer to the challenge if there is one, and the association request.
  function Joining(f: AuthFrame, w: nat, nonce: Challenge, g: AssocFrame): seq<Event> {
    [EvAuth(f, nonce)] + (if f.alg == 1 then [EvAuth(Echo(f, w, nonce), 0)] else []) + [EvAssoc(g)]
  }

  // The station can join BSS `b` with these frames.
  predicate CanJoin(s: Ap, f: AuthFrame, g: AssocFrame, b: nat)
    requires Shape(s)
  {
    && f.seqNo == 1 && (f.alg == 0 || f.alg == 1) && f.devUp && FrameFrom(s, f.wcid, f.addr2)
    && FirstBss(s, b, f.addr1) && Answers(s.bss[b], f) && HasPlace(s, f.addr2, b)
    && g.addr2 == f.addr2 && g.sane && g.ssidOk && g.rateOk && g.rsnOk && (g.hasRsn || s.bss[b].authMode != AuthWpa)
  }

  // The station of BSS `b` in slot `w` has got past `sst`.
  predicate Standing(s: Ap, t: Ap, w: nat, a: Mac, b: nat, sst: Sst) {
    && Stations(t) && In(t, w, a, b, sst) && b < |t.bss| && b < |s.bss|
    && t.bss[b].authMode == s.bss[b].authMode && t.bss[b].bssid == s.bss[b].bssid
  }

  lemma AfterRequest(s: Ap, f: AuthFrame, nonce: Challenge, g: AssocFrame, b: nat) returns (w: nat)
    requires Stations(s) && CanJoin(s, f, g, b)
    ensures Enabled(s, EvAuth(f, nonce))
    ensures var t := Step(s, EvAuth(f, nonce));
            && Standing(s, t, w, f.addr2, b, if f.alg == 0 then Auth else NotAuth)
            && (f.alg == 1 ==> t.auxAddr == f.addr2 && t.auxChallenge == nonce)
  {
    assert Shape(s);
    hide Stations, Answers, HasPlace, Gone, OthersKept, AuthReq, AuthConfirm, In, LetIn, Step;
    RequestAnswered(s, f, nonce, b);
    RequestStep(s, f, nonce);
    var t := Step(s, EvAuth(f, nonce));
    var sst := if f.alg == 0 then Auth else NotAuth;
    w := LetInSlot(s, t, f.addr2, b, sst);
    StepStations(s, EvAuth(f, nonce));
    ModeKept(s, EvAuth(f, nonce), b);
  }

  lemma RequestStep(s: Ap, f: AuthFrame, nonce: Challenge)
    requires Shape(s) && FrameFrom(s, f.wcid, f.addr2) && f.seqNo == 1 && (f.alg == 0 || f.alg == 1)
    ensures Enabled(s, EvAuth(f, nonce)) && Step(s, EvAuth(f, nonce)) == AuthReq(s, f, nonce)
  {
    hide AuthReq, AuthConfirm;
  }

  lemma LetInSlot(s: Ap, t: Ap, a: Mac, b: nat, sst: Sst) returns (w: nat)
    requires LetIn(s, t, a, b, sst)
    ensures In(t, w, a, b, sst)
  {
    w :| 0 <= w < |t.entries| && In(t, w, a, b, sst) && (Of(s.entries[w], a, b) || Newcomer(t.entries[w], s.staIdleTimeout));
  }

  lemma ModeKept(s: Ap, e: Event, b: nat)
    requires Enabled(s, e) && b < |s.bss|
    ensures var t := Step(s, e); |t.bss| == |s.bss| && t.bss[b].authMode == s.bss[b].authMode && t.bss[b].bssid == s.bss[b].bssid
  {
    hide Step;
    StepModes(s, e);
    assert SameMode(s.bss[b], Step(s, e).bss[b]);
  }

  lemma AfterEcho(s: Ap, t: Ap, f: AuthFrame, nonce: Challenge, w: nat, b: nat)
    requires Standing(s, t, w, f.addr2, b, NotAuth) && t.auxAddr == f.addr2 && t.auxChallenge == nonce
    requires s.bss[b].bssid == f.addr1
    ensures Enabled(t, EvAuth(Echo(f, w, nonce), 0))
    ensures Standing(s, Step(t, EvAuth(Echo(f, w, nonce), 0)), w, f.addr2, b, Auth)
  {
    assert Shape(t);
    hide Stations, OthersKept, Gone, AuthReq, AuthConfirm;
    var e := Echo(f, w, nonce);
    ConfirmAnswered(t, e);
    StepStations(t, EvAuth(e, 0));
    ModeKept(t, EvAuth(e, 0), b);
  }

  lemma AfterAssoc(s: Ap, t: Ap, g: AssocFrame, w: nat, b: nat)
    requires Standing(s, t, w, g.addr2, b, Auth)
    requires g.sane && g.ssidOk && g.rateOk && g.rsnOk && (g.hasRsn || s.bss[b].authMode != AuthWpa)
    ensures Enabled(t, EvAssoc(g)) && In(Step(t, EvAssoc(g)), w, g.addr2, b, Assoc)
  {
    assert Shape(t);
    hide Stations, OthersKept, Gone, AssocReq;
    AssocAnswered(t, g);
  }

  /** From every reachable state, a station that the access control list of a BSS admits, whose algorithm goes with the
      authentication mode and that has a place in the BSS joins it with two frames in an open system and with three,
      the second of which echoes the challenge, with a shared key; its data frames then pass the class filter. */
  lemma StationJoins(s0: Ap, es: seq<Event>, f: AuthFrame, nonce: Challenge, g: AssocFrame, b: nat)
    requires Init(s0) && Run(s0, es) && CanJoin(Exec(s0, es), f, g, b)
    ensures exists w :: 1 <= w < MAX_LEN_OF_MAC_TABLE && Run(Exec(s0, es), Joining(f, w, nonce, g))
              && var t := Exec(Exec(s0, es), Joining(f, w, nonce, g));
              In(t, w, f.addr2, b, Assoc) && ClassFilterPasses(t, w)
  {
    hide CanJoin, In, Step, Enabled, Stations, Standing;
    var s := Exec(s0, es);
    Reached(s0, es);
    hide Run, Exec, Init;
    var w := JoinSteps(s, f, nonce, g, b);
  }

  lemma JoinSteps(s: Ap, f: AuthFrame, nonce: Challenge, g: AssocFrame, b: nat) returns (w: nat)
    requires Stations(s) && CanJoin(s, f, g, b)
    ensures 1 <= w < MAX_LEN_OF_MAC_TABLE && Run(s, Joining(f, w, nonce, g))
    ensures In(Exec(s, Joining(f, w, nonce, g)), w, f.addr2, b, Assoc) && ClassFilterPasses(Exec(s, Joining(f, w, nonce, g)), w)
  {
    hide Step, Enabled, Stations, Answers, HasPlace;
    w := AfterRequest(s, f, nonce, g, b);
    var t := Step(s, EvAuth(f, nonce));
    assert w >= 1 by {
      NotSlot0(t, w, f.addr2, b, if f.alg == 0 then Auth else NotAuth);
    }
    var u := t;
    if f.alg == 1 {
      AfterEcho(s, t, f, nonce, w, b);
      u := Step(t, EvAuth(Echo(f, w, nonce), 0));
    }
    AfterAssoc(s, u, g, w, b);
    var last := [EvAssoc(g)];
    RunCons(u, EvAssoc(g), []);
    assert last + [] == last;
    if f.alg == 1 {
      RunCons(t, EvAuth(Echo(f, w, nonce), 0), last);
      RunCons(s, EvAuth(f, nonce), [EvAuth(Echo(f, w, nonce), 0)] + last);
      assert Joining(f, w, nonce, g) == [EvAuth(f, nonce)] + ([EvAuth(Echo(f, w, nonce), 0)] + last);
    } else {
      RunCons(s, EvAuth(f, nonce), last);
      assert Joining(f, w, nonce, g) == [EvAuth(f, nonce)] + last;
    }
  }

  lemma NotSlot0(t: Ap, w: nat, a: Mac, b: nat, sst: Sst)
    requires Stations(t) && In(t, w, a, b, sst)
    ensures w >= 1
  {
    assert Welcome(t, w);
  }

  // ---------- stations that leave ----------

  // The sender's slot is found, it leaves and no other station notices; or nothing happens.
  predicate Leaves(s: Ap, t: Ap, a: Mac, found: bool) {
    if found then Gone(t, a) && OthersKept(s, t, a) else t == s
  }

  lemma DeleteLeaves(s: Ap, w: nat, a: Mac)
    requires Stations(s)
    ensures Leaves(s, Delete(s, w, a), a, w < |s.entries| && s.entries[w].kind == EntryClient && s.entries[w].addr == a)
  {
    assert Shape(s);
    if w < |s.entries| && s.entries[w].kind == EntryClient && s.entries[w].addr == a {
      DeleteOutcome(s, w);
    }
    hide Stations;
  }

  /** In every reachable state, a deauthentication or disassociation removes the station whose address is in the reported slot,
      kicking out removes the station with that address wherever it is, and a data frame of a station that is not associated
      removes its sender.  No other station notices, and if there is no such station nothing happens. */
  lemma RemovalOutcome(s0: Ap, es: seq<Event>, w: nat, a: Mac, psm: PsMode)
    requires Init(s0) && Run(s0, es)
    ensures var s := Exec(s0, es); var found := w < |s.entries| && s.entries[w].kind == EntryClient && s.entries[w].addr == a;
            && Leaves(s, Step(s, EvDeauth(w, a)), a, found)
            && Leaves(s, Step(s, EvDisassoc(w, a)), a, found)
            && Leaves(s, Step(s, EvKickOut(a)), a, !Gone(s, a))
            && (Enabled(s, EvRxData(w, a, psm)) && (w < |s.entries| ==> s.entries[w].sst != Assoc) ==>
                  Leaves(s, Step(s, EvRxData(w, a, psm)), a, found))
  {
    hide Exec, Run, Init, Leaves, Gone;
    Reached(s0, es);
    Removed(Exec(s0, es), w, a, psm);
    hide Step, Enabled, Stations;
  }

  lemma Removed(s: Ap, w: nat, a: Mac, psm: PsMode)
    requires Stations(s)
    ensures var found := w < |s.entries| && s.entries[w].kind == EntryClient && s.entries[w].addr == a;
            && Leaves(s, Step(s, EvDeauth(w, a)), a, found)
            && Leaves(s, Step(s, EvDisassoc(w, a)), a, found)
            && Leaves(s, Step(s, EvKickOut(a)), a, !Gone(s, a))
            && (Enabled(s, EvRxData(w, a, psm)) && (w < |s.entries| ==> s.entries[w].sst != Assoc) ==>
                  Leaves(s, Step(s, EvRxData(w, a, psm)), a, found))
  {
    assert Shape(s);
    hide Delete, PsIndicate, Stations, Leaves, Lookup;
    LookupGone(s, a);
    DeleteLeaves(s, w, a);
    DeleteLeaves(s, Lookup(s, a), a);
    SelfLeaves(s, a);
  }

  lemma SelfLeaves(s: Ap, a: Mac)
    ensures Leaves(s, s, a, false)
  {
  }

  // ---------- editing an access control list ----------

  // The command leaves BSS `b` with this policy and this list.
  function Edited(s: Ap, e: Event): (r: (nat, nat, seq<Mac>))
    requires Enabled(s, e) && (e.EvPolicy? || e.EvAclAdd? || e.EvAclDel? || e.EvAclClear?)
    ensures r.0 < |s.bss|
  {
    match e
    case EvPolicy(b, p) => (b, if p <= 2 then p else s.bss[b].policy, s.bss[b].acl)
    case EvAclAdd(b, addrs) => (b, s.bss[b].policy, AclList.Add(s.bss[b].acl, addrs))
    case EvAclDel(b, addrs) => (b, s.bss[b].policy, AclList.Without(s.bss[b].acl, addrs))
    case EvAclClear(b) => (b, s.bss[b].policy, [])
  }

  // Slot `i` is freed if the new list of BSS `b` keeps its station out, and is otherwise left as it was.
  predicate Screened(s: Ap, t: Ap, i: nat, b: nat, policy: nat, acl: seq<Mac>)
    requires i < |s.entries| && i < |t.entries|
  {
    var e := s.entries[i];
    if e.kind == EntryClient && e.apidx == b && !Listed(policy, acl, e.addr) then t.entries[i].kind == EntryNone else t.entries[i] == e
  }

  lemma {:induction false} UpdateAclEffect(s: Ap, b: nat, i: nat, j: nat)
    requires Shape(s) && b < |s.bss| && i <= MAX_LEN_OF_MAC_TABLE && j < MAX_LEN_OF_MAC_TABLE && 1 <= s.bss[b].policy <= 2
    ensures var t := UpdateAclFrom(s, b, i);
            && t.bss[b].policy == s.bss[b].policy && t.bss[b].acl == s.bss[b].acl
            && (if j < i then t.entries[j] == s.entries[j] else Screened(s, t, j, b, s.bss[b].policy, s.bss[b].acl))
    decreases MAX_LEN_OF_MAC_TABLE - i
  {
    if i < MAX_LEN_OF_MAC_TABLE {
      DeleteScreens(s, b, i);
      hide Delete;
      UpdateAclEffect(Delete(s, i, s.entries[i].addr), b, i + 1, j);
      UpdateAclEffect(s, b, i + 1, j);
    }
  }

  lemma DeleteScreens(s: Ap, b: nat, i: nat)
    requires Shape(s) && b < |s.bss| && i < MAX_LEN_OF_MAC_TABLE
    ensures var t := Delete(s, i, s.entries[i].addr);
            && |t.bss| == |s.bss| && t.bss[b].policy == s.bss[b].policy && t.bss[b].acl == s.bss[b].acl
            && t.entries[i].kind == EntryNone && forall j :: 0 <= j < |s.entries| && j != i ==> t.entries[j] == s.entries[j]
  {
  }

  lemma UpdateScreens(s: Ap, b: nat, x: Bss, j: nat)
    requires Shape(s) && b < |s.bss| && |x.timBitmaps| == WLAN_MAX_NUM_OF_TIM && x.policy <= 2 && j < MAX_LEN_OF_MAC_TABLE
    ensures var t := UpdateAcl(SetBss(s, b, x), b);
            |t.bss| == |s.bss| && t.bss[b].policy == x.policy && t.bss[b].acl == x.acl && Screened(s, t, j, b, x.policy, x.acl)
  {
    hide UpdateAclFrom;
    if x.policy != 0 {
      UpdateAclEffect(SetBss(s, b, x), b, 0, j);
      UpdateAclShrinks(SetBss(s, b, x), b, 0);
    }
  }

  lemma UnchangedScreens(s: Ap, b: nat, j: nat)
    requires Stations(s) && b < |s.bss| && j < MAX_LEN_OF_MAC_TABLE
    ensures Screened(s, s, j, b, s.bss[b].policy, s.bss[b].acl)
  {
    assert Welcome(s, j);
  }

  /** A command on an access control list, in every reachable state: the list and the policy become what the command asks for
      (deleting keeps the entries not named, in order, without zeros; a policy above 2 is refused), the stations of that
      BSS that the new list keeps out are removed, and every other station stays exactly as it was. */
  lemma AclOutcome(s0: Ap, es: seq<Event>, e: Event, j: nat)
    requires Init(s0) && Run(s0, es) && Enabled(Exec(s0, es), e) && j < MAX_LEN_OF_MAC_TABLE
    requires e.EvPolicy? || e.EvAclAdd? || e.EvAclDel? || e.EvAclClear?
    ensures var s := Exec(s0, es); var t := Step(s, e); var (b, policy, acl) := Edited(s, e);
            |t.bss| == |s.bss| && t.bss[b].policy == policy && t.bss[b].acl == acl && Screened(s, t, j, b, policy, acl)
  {
    hide Exec, Run, Init;
    Reached(s0, es);
    AclStep(Exec(s0, es), e, j);
    hide Step, Edited, Screened;
  }

  // BSS `b` has this policy and this list, and the stations they keep out are gone.
  predicate Enforced(s: Ap, t: Ap, b: nat, policy: nat, acl: seq<Mac>, j: nat)
    requires j < |s.entries| && j < |t.entries| && b < |s.bss|
  {
    |t.bss| == |s.bss| && t.bss[b].policy == policy && t.bss[b].acl == acl && Screened(s, t, j, b, policy, acl)
  }

  lemma PolicyEnforced(s: Ap, b: nat, policy: nat, j: nat)
    requires Stations(s) && b < |s.bss| && j < MAX_LEN_OF_MAC_TABLE
    ensures Enforced(s, SetPolicy(s, b, policy), b, if policy <= 2 then policy else s.bss[b].policy, s.bss[b].acl, j)
  {
    assert Shape(s);
    hide UpdateAcl, Screened, Stations;
    UnchangedScreens(s, b, j);
    if policy <= 2 {
      UpdateScreens(s, b, s.bss[b].(policy := policy), j);
    }
  }

  lemma ListEnforced(s: Ap, b: nat, acl: seq<Mac>, j: nat)
    requires Stations(s) && b < |s.bss| && j < MAX_LEN_OF_MAC_TABLE
    ensures Enforced(s, SetAcl(s, b, acl), b, s.bss[b].policy, acl, j) && Enforced(s, s, b, s.bss[b].policy, s.bss[b].acl, j)
  {
    assert s.bss[b].policy <= 2;
    assert Shape(s);
    hide UpdateAcl, Screened, Stations;
    UnchangedScreens(s, b, j);
    UpdateScreens(s, b, s.bss[b].(acl := acl), j);
  }

  lemma AclStep(s: Ap, e: Event, j: nat)
    requires Stations(s) && Enabled(s, e) && j < MAX_LEN_OF_MAC_TABLE
    requires e.EvPolicy? || e.EvAclAdd? || e.EvAclDel? || e.EvAclClear?
    ensures var t := Step(s, e); var (b, policy, acl) := Edited(s, e); Enforced(s, t, b, policy, acl, j)
  {
    assert Shape(s);
    hide SetPolicy, SetAcl, Enforced, Stations, AclList.AddLoop, AclList.Without, AclList.Del;
    match e
    case EvPolicy(b, policy) => PolicyEnforced(s, b, policy, j);
    case EvAclAdd(b, addrs) => ListEnforced(s, b, AclList.Add(s.bss[b].acl, addrs), j);
    case EvAclDel(b, addrs) =>
      AclList.DelIsFilter(s.bss[b].acl, addrs);
      ListEnforced(s, b, AclList.Del(s.bss[b].acl, addrs), j);
    case EvAclClear(b) => ListEnforced(s, b, [], j);
  }
}
