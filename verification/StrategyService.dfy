/** The season record against the offers themselves: who is listed, since when, and what the flags say. */
module StrategyService {
  import opened Common
  import opened StrategyModel
  import opened StrategyRuns

  /** The offer names this identity: known words, a version neither blank nor too long, no skill just for the critic. */
  ghost predicate Names(o: Offer, id: Identity) {
    && o.kind == Some(id.kind) && o.skill == Some(id.skill) && o.version == id.version
    && 0 < |id.version| <= 512 && (id.kind == AiCritic <==> id.skill == NoSkill)
    && exists i :: 0 <= i < |id.version| && !IsSpace(id.version[i])
  }

  predicate Counted(started: int, call: Call) {
    call.at.Some? && started <= call.at.value
  }

  /** A call that counts offered the identity. */
  ghost predicate OfferedAt(started: int, calls: seq<Call>, n: nat, id: Identity) {
    n < |calls| && Counted(started, calls[n]) && exists o :: o in calls[n].offers && Names(o, id)
  }

  ghost predicate FirstAt(started: int, calls: seq<Call>, n: nat, id: Identity) {
    OfferedAt(started, calls, n, id) && forall m: nat :: m < n ==> !OfferedAt(started, calls, m, id)
  }

  lemma NamesIsAcceptable(o: Offer, id: Identity)
    ensures Names(o, id) <==>
              Acceptable(o) && Identity(o.kind.value, o.skill.value, o.version) == id
  {
  }

  lemma {:induction false} ValidUsesExactly(offers: seq<Offer>, at: int, u: Use)
    ensures u in ValidUses(offers, at) <==> u.at == at && exists o :: o in offers && Names(o, u.id)
  {
    if offers != [] {
      var init, last := offers[..|offers| - 1], offers[|offers| - 1];
      ValidUsesExactly(init, at, u);
      NamesIsAcceptable(last, u.id);
      assert offers == init + [last];
      assert forall o :: o in offers <==> o in init || o == last;
    }
  }

  /** Of one call's uses, exactly those of identities not known before are new. */
  lemma NewUsesExactly(offers: seq<Offer>, at: int, known: set<Identity>, u: Use)
    ensures u in FirstUses(ValidUses(offers, at), known)
            <==> u.at == at && u.id !in known && exists o :: o in offers && Names(o, u.id)
  {
    var uses := ValidUses(offers, at);
    FirstUsesAre(uses, known);
    ValidUsesExactly(offers, at, u);
    if u.id !in known && u in uses {
      assert u.id in Ids(FirstUses(uses, known));
      var v :| v in FirstUses(uses, known) && v.id == u.id;
      ValidUsesExactly(offers, at, v);
    }
  }

  lemma PrefixOffered(started: int, calls: seq<Call>, n: nat, id: Identity)
    requires n < |calls| - 1
    ensures OfferedAt(started, calls[..|calls| - 1], n, id) == OfferedAt(started, calls, n, id)
    ensures FirstAt(started, calls[..|calls| - 1], n, id) == FirstAt(started, calls, n, id)
  {
    var init := calls[..|calls| - 1];
    forall m: nat | m <= n ensures OfferedAt(started, init, m, id) == OfferedAt(started, calls, m, id) {
      assert init[m] == calls[m];
    }
  }

  /** An identity is among those offered exactly when some call that counts offered it. */
  lemma {:induction false} OfferedExactly(started: int, calls: seq<Call>, id: Identity)
    ensures id in Ids(Offered(started, calls)) <==> exists n: nat :: OfferedAt(started, calls, n, id)
  {
    if calls != [] {
      var init, last := calls[..|calls| - 1], calls[|calls| - 1];
      OfferedExactly(started, init, id);
      forall n: nat | n < |init| ensures OfferedAt(started, init, n, id) == OfferedAt(started, calls, n, id) {
        PrefixOffered(started, calls, n, id);
      }
      if Counted(started, last) {
        ValidUsesExactly(last.offers, last.at.value, Use(id, last.at.value));
        IdsJoin(Offered(started, init), ValidUses(last.offers, last.at.value), id);
        LastIsStamped(last.offers, last.at.value, id);
      }
      assert OfferedAt(started, calls, |init|, id) <==>
             Counted(started, last) && exists o :: o in last.offers && Names(o, id);
    }
  }

  lemma IdsJoin(a: seq<Use>, b: seq<Use>, id: Identity)
    ensures id in Ids(a + b) <==> id in Ids(a) || id in Ids(b)
  {
  }

  lemma LastIsStamped(offers: seq<Offer>, at: int, id: Identity)
    ensures id in Ids(ValidUses(offers, at)) <==> Use(id, at) in ValidUses(offers, at)
  {
    ValidUsesAre(offers, at);
  }

  /** A use is a first use exactly at the first call that counts and offered its identity. */
  lemma {:induction false} FirstUsesExactly(started: int, calls: seq<Call>, u: Use)
    ensures u in FirstUses(Offered(started, calls), {})
            <==> exists n: nat :: FirstAt(started, calls, n, u.id) && calls[n].at == Some(u.at)
  {
    if calls != [] {
      var init, last := calls[..|calls| - 1], calls[|calls| - 1];
      FirstUsesExactly(started, init, u);
      OfferedExactly(started, init, u.id);
      forall n: nat | n < |init|
        ensures OfferedAt(started, init, n, u.id) == OfferedAt(started, calls, n, u.id)
        ensures FirstAt(started, init, n, u.id) == FirstAt(started, calls, n, u.id) && init[n] == calls[n]
      {
        PrefixOffered(started, calls, n, u.id);
      }
      if Counted(started, last) {
        FirstUsesConcat(Offered(started, init), ValidUses(last.offers, last.at.value), {});
        assert {} + Ids(Offered(started, init)) == Ids(Offered(started, init));
        NewUsesExactly(last.offers, last.at.value, Ids(Offered(started, init)), u);
      }
      LastIsFirst(started, calls, u.id);
    }
  }

  lemma LastIsFirst(started: int, calls: seq<Call>, id: Identity)
    requires calls != []
    ensures var last := |calls| - 1;
            FirstAt(started, calls, last, id) <==>
              && Counted(started, calls[last]) && (exists o :: o in calls[last].offers && Names(o, id))
              && !exists n: nat :: OfferedAt(started, calls[..last], n, id)
  {
    var last := |calls| - 1;
    var init := calls[..last];
    forall n: nat | n < last ensures OfferedAt(started, init, n, id) == OfferedAt(started, calls, n, id) {
      PrefixOffered(started, calls, n, id);
    }
    if n: nat :| OfferedAt(started, init, n, id) {
      assert OfferedAt(started, calls, n, id);
    }
    if OfferedAt(started, calls, last, id) && !FirstAt(started, calls, last, id) {
      var m: nat :| m < last && OfferedAt(started, calls, m, id);
      assert OfferedAt(started, init, m, id);
    }
  }

  /**
   * Unless the list is full, the participants are exactly the identities some counted call offered,
   * each since the first such call; a full list holds 128 of them.
   */
  lemma ParticipantsExactly(started: int, complete: bool, calls: seq<Call>)
    ensures var r := Run(started, complete, calls);
            && (r.limited ==> |r.participants| == 128)
            && (forall u :: u in r.participants ==>
                  exists n: nat :: FirstAt(started, calls, n, u.id) && calls[n].at == Some(u.at))
            && (!r.limited ==>
                  forall u: Use :: (exists n: nat :: FirstAt(started, calls, n, u.id) && calls[n].at == Some(u.at)) ==>
                    u in r.participants)
  {
    RecordDescribesRun(started, complete, calls);
    var r, first := Run(started, complete, calls), FirstUses(Offered(started, calls), {});
    forall u: Use
      ensures u in first <==> exists n: nat :: FirstAt(started, calls, n, u.id) && calls[n].at == Some(u.at)
    {
      FirstUsesExactly(started, calls, u);
    }
    PrefixIds(first, MAX_PARTICIPANTS);
  }

  // ---------------------------------------------------------------- the flags

  /** A call that counts made an offer that names nobody. */
  ghost predicate Unnamed(started: int, calls: seq<Call>, n: nat) {
    n < |calls| && Counted(started, calls[n]) && exists o :: o in calls[n].offers && forall id :: !Names(o, id)
  }

  lemma SomeInvalid(offers: seq<Offer>)
    ensures AnyInvalid(offers) <==> exists o :: o in offers && forall id :: !Names(o, id)
  {
    forall o | o in offers ensures Acceptable(o) <==> exists id :: Names(o, id) {
      if Acceptable(o) {
        NamesIsAcceptable(o, Identity(o.kind.value, o.skill.value, o.version));
      }
      if id :| Names(o, id) {
        NamesIsAcceptable(o, id);
      }
    }
    if AnyInvalid(offers) {
      var i :| 0 <= i < |offers| && !Acceptable(offers[i]);
      assert offers[i] in offers;
    }
  }

  lemma {:induction false} FirstEmptyExactly(started: int, calls: seq<Call>)
    ensures FirstEmpty(started, calls).Some? <==>
              exists n: nat :: n < |calls| && Counted(started, calls[n]) && calls[n].offers == []
    ensures FirstEmpty(started, calls).Some? ==>
              exists n: nat :: EmptyFirst(started, calls, n) && calls[n].at == FirstEmpty(started, calls)
  {
    if calls != [] {
      var init, last := calls[..|calls| - 1], |calls| - 1;
      FirstEmptyExactly(started, init);
      assert forall n: nat :: n < last ==> init[n] == calls[n];
      if FirstEmpty(started, init).Some? {
        var n: nat :| EmptyFirst(started, init, n) && init[n].at == FirstEmpty(started, init);
        assert EmptyFirst(started, calls, n);
      } else if FirstEmpty(started, calls).Some? {
        assert EmptyFirst(started, calls, last);
      }
    }
  }

  /** The first call that counts and had no participant. */
  predicate EmptyFirst(started: int, calls: seq<Call>, n: nat) {
    && n < |calls| && Counted(started, calls[n]) && calls[n].offers == []
    && forall m: nat :: m < n && Counted(started, calls[m]) ==> calls[m].offers != []
  }

  lemma KindOffered(uses: seq<Use>, kind: Kind)
    ensures HasKind(uses, kind) <==> exists id :: id in Ids(uses) && id.kind == kind
  {
    if HasKind(uses, kind) {
      var i :| 0 <= i < |uses| && uses[i].id.kind == kind;
      assert uses[i] in uses && uses[i].id in Ids(uses);
    }
  }

  lemma SkillsOffered(uses: seq<Use>, s: Skill)
    ensures s in SkillList(Skills(uses)) <==> s != NoSkill && exists id :: id in Ids(uses) && id.skill == s
  {
    SkillListIs(Skills(uses));
    assert s in SkillList(Skills(uses)) <==> s in Elements(SkillList(Skills(uses)));
    if id :| id in Ids(uses) && id.skill == s {
      var u :| u in uses && u.id == id;
    }
    if u :| u in uses && u.id.skill == s {
      assert u.id in Ids(uses);
    }
  }

  ghost predicate Offers(started: int, calls: seq<Call>, id: Identity) {
    exists n: nat :: OfferedAt(started, calls, n, id)
  }

  lemma NotesExactly(started: int, complete: bool, calls: seq<Call>)
    ensures var r := Run(started, complete, calls);
            && (r.unattributed <==> exists n: nat :: Unnamed(started, calls, n))
            && (r.baseline <==> exists n: nat :: EmptyFirst(started, calls, n))
            && (r.baseline ==> exists n: nat :: EmptyFirst(started, calls, n) && calls[n].at == r.firstBaseline)
  {
    RecordDescribesRun(started, complete, calls);
    FirstEmptyExactly(started, calls);
    forall n: nat | n < |calls| && Counted(started, calls[n])
      ensures AnyInvalid(calls[n].offers) <==> Unnamed(started, calls, n)
    {
      SomeInvalid(calls[n].offers);
    }
    if SawInvalid(started, calls) {
      var i :| 0 <= i < |calls| && calls[i].at.Some? && calls[i].at.value >= started && AnyInvalid(calls[i].offers);
      assert Counted(started, calls[i]) && Unnamed(started, calls, i);
    }
  }

  /** The flags speak of every counted call, listed or not. */
  lemma FlagsExactly(started: int, complete: bool, calls: seq<Call>)
    ensures var r := Run(started, complete, calls);
            && (r.ai <==> exists id :: Offers(started, calls, id) && id.kind == AiCritic)
            && (r.champion <==> exists id :: Offers(started, calls, id) && id.kind == Champion)
            && forall s :: s in r.skills <==> s != NoSkill && exists id :: Offers(started, calls, id) && id.skill == s
  {
    RecordDescribesRun(started, complete, calls);
    var offered := Offered(started, calls);
    forall id: Identity ensures id in Ids(offered) <==> Offers(started, calls, id) {
      OfferedExactly(started, calls, id);
    }
    KindOffered(offered, AiCritic);
    KindOffered(offered, Champion);
    forall s: Skill
      ensures s in SkillList(Skills(offered)) <==>
                s != NoSkill && exists id :: Offers(started, calls, id) && id.skill == s
    {
      SkillsOffered(offered, s);
    }
  }
}
