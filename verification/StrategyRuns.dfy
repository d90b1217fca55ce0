/** What recording keeps, and what a record says after any number of calls. */
module StrategyRuns {
  import opened Common
  import opened StrategyModel

  // ---------------------------------------------------------------- one call

  lemma PrefixIds(uses: seq<Use>, n: nat)
    ensures Ids(Prefix(uses, n)) <= Ids(uses)
    ensures DistinctIds(uses) ==> DistinctIds(Prefix(uses, n))
    ensures forall u :: u in Prefix(uses, n) ==> u in uses
  {
  }

  /** What a call appends: new identities only, each stamped with the time of the call. */
  lemma KeptAre(r: Record, uses: seq<Use>)
    ensures DistinctIds(Kept(r, uses)) && Ids(Kept(r, uses)) <= Ids(uses)
    ensures Ids(Kept(r, uses)) !! Ids(r.participants)
    ensures forall u :: u in Kept(r, uses) ==> u in uses
  {
    FirstUsesAre(uses, Ids(r.participants));
    PrefixIds(FirstUses(uses, Ids(r.participants)), Max(0, MAX_PARTICIPANTS - |Ids(r.participants)|));
  }

  lemma DistinctIdsConcat(a: seq<Use>, b: seq<Use>)
    requires DistinctIds(a) && DistinctIds(b) && Ids(a) !! Ids(b)
    ensures DistinctIds(a + b)
  {
    forall i, j | 0 <= i < j < |a + b| ensures (a + b)[i].id != (a + b)[j].id {
      if i < |a| <= j {
        assert a[i].id in Ids(a) && b[j - |a|].id in Ids(b);
      }
    }
  }

  lemma UpdatedShape(r: Record, offers: seq<Offer>, at: int)
    requires ConsistentHistory(r)
    ensures Shape(Updated(r, offers, at))
    ensures Updated(r, offers, at).limited && !r.limited ==> |Updated(r, offers, at).participants| == MAX_PARTICIPANTS
    ensures r.limited ==> Kept(r, ValidUses(offers, at)) == []
  {
    var uses := ValidUses(offers, at);
    IdsSize(r.participants);
    ValidUsesAre(offers, at);
    KeptAre(r, uses);
    SkillsAreNamed(r, uses);
    assert forall u :: u in Kept(r, uses) ==> WellFormed(u.id);
  }

  lemma SkillsAreNamed(r: Record, uses: seq<Use>)
    requires NoSkill !in r.skills
    ensures var all := Elements(r.skills) + Skills(uses);
            Distinct(SkillList(all)) && Elements(SkillList(all)) == all && NoSkill !in SkillList(all)
  {
    SkillListIs(Elements(r.skills) + Skills(uses));
  }

  lemma UpdatedTimely(r: Record, offers: seq<Offer>, at: int)
    requires ConsistentHistory(r) && at >= r.started
    ensures Timely(Updated(r, offers, at))
  {
    var uses := ValidUses(offers, at);
    ValidUsesAre(offers, at);
    KeptAre(r, uses);
    SkillsAreNamed(r, uses);
    DistinctIdsConcat(r.participants, Kept(r, uses));
    assert forall u :: u in Kept(r, uses) ==> u.at == at;
  }

  /** Without the limit, kept and offered identities add up to the same summary. */
  lemma SameSummary(r: Record, uses: seq<Use>, kind: Kind)
    requires DistinctIds(r.participants)
    requires |Ids(r.participants)| + |FirstUses(uses, Ids(r.participants))| <= MAX_PARTICIPANTS
    ensures Skills(r.participants + Kept(r, uses)) == Skills(r.participants) + Skills(uses)
    ensures HasKind(r.participants + Kept(r, uses), kind) <==> HasKind(r.participants, kind) || HasKind(uses, kind)
  {
    FirstUsesAre(uses, Ids(r.participants));
    SummaryConcat(r.participants, Kept(r, uses), kind);
    SummaryConcat(r.participants, uses, kind);
    SummaryOfIds(r.participants + Kept(r, uses), r.participants + uses, kind);
    SummaryOfIds(r.participants + uses, r.participants + Kept(r, uses), kind);
  }

  lemma UpdatedSummarised(r: Record, offers: seq<Offer>, at: int)
    requires ConsistentHistory(r)
    ensures Summarised(Updated(r, offers, at))
  {
    var uses := ValidUses(offers, at);
    var next := Updated(r, offers, at);
    UpdatedShape(r, offers, at);
    SkillsAreNamed(r, uses);
    KeptAre(r, uses);
    if next.limited {
      SummaryConcat(r.participants, Kept(r, uses), AiCritic);
      SummaryConcat(r.participants, Kept(r, uses), Champion);
      SummaryOfIds(Kept(r, uses), uses, AiCritic);
      SummaryOfIds(Kept(r, uses), uses, Champion);
    } else {
      SameSummary(r, uses, AiCritic);
      SameSummary(r, uses, Champion);
    }
  }

  /** Recording keeps the record valid, whatever is offered and whenever. */
  lemma RecordKeepsHistory(r: Record, offers: seq<Offer>, at: Option<int>)
    requires ConsistentHistory(r)
    ensures ConsistentHistory(RecordUse(r, offers, at))
    ensures RecordUse(r, offers, at).started == r.started && RecordUse(r, offers, at).complete == r.complete
  {
    if Counts(r, at) {
      UpdatedKeepsHistory(r, offers, at.value);
    }
  }

  // ---------------------------------------------------------------- repetition

  lemma AllKnown(uses: seq<Use>, known: set<Identity>)
    requires Ids(uses) <= known
    ensures FirstUses(uses, known) == []
  {
    FirstUsesAre(uses, known);
    NoIds(FirstUses(uses, known));
  }

  lemma UpdatedKeepsHistory(r: Record, offers: seq<Offer>, at: int)
    requires ConsistentHistory(r) && at >= r.started
    ensures ConsistentHistory(Updated(r, offers, at))
  {
    UpdatedShape(r, offers, at);
    UpdatedTimely(r, offers, at);
    UpdatedSummarised(r, offers, at);
  }

  /** Below the limit everything offered is now listed. */
  lemma AllListed(r: Record, uses: seq<Use>)
    requires |Ids(r.participants)| + |FirstUses(uses, Ids(r.participants))| <= MAX_PARTICIPANTS
    ensures Ids(uses) <= Ids(r.participants + Kept(r, uses))
  {
    FirstUsesAre(uses, Ids(r.participants));
    SummaryConcat(r.participants, Kept(r, uses), AiCritic);
  }

  /** After a call no offered identity is new unless the list is full. */
  lemma NothingLeft(r: Record, offers: seq<Offer>, at: int, later: int)
    requires ConsistentHistory(r) && at >= r.started
    ensures var next := Updated(r, offers, at);
            && Kept(next, ValidUses(offers, later)) == []
            && (Updated(next, offers, later).limited <==> next.limited)
  {
    var next := Updated(r, offers, at);
    UpdatedKeepsHistory(r, offers, at);
    if next.limited {
      UpdatedShape(next, offers, later);
    } else {
      AllListed(r, ValidUses(offers, at));
      SameIds(offers, at, later);
      AllKnown(ValidUses(offers, later), Ids(next.participants));
      IdsSize(next.participants);
    }
  }

  lemma NoIds(uses: seq<Use>)
    requires Ids(uses) == {}
    ensures uses == []
  {
    assert uses != [] ==> uses[0].id in Ids(uses);
  }

  lemma IdsAppend(uses: seq<Use>, u: Use)
    ensures Ids(uses + [u]) == Ids(uses) + {u.id}
  {
  }

  lemma {:induction false} SameOfferedIds(offers: seq<Offer>, at: int, later: int)
    ensures Ids(ValidUses(offers, at)) == Ids(ValidUses(offers, later))
  {
    if offers == [] {
    } else {
      var init, last := offers[..|offers| - 1], offers[|offers| - 1];
      SameOfferedIds(init, at, later);
      if Acceptable(last) {
        var id := Identity(last.kind.value, last.skill.value, last.version);
        IdsAppend(ValidUses(init, at), Use(id, at));
        IdsAppend(ValidUses(init, later), Use(id, later));
      }
    }
  }

  lemma SameIds(offers: seq<Offer>, at: int, later: int)
    ensures Ids(ValidUses(offers, at)) == Ids(ValidUses(offers, later))
    ensures Skills(ValidUses(offers, at)) == Skills(ValidUses(offers, later))
    ensures forall kind :: HasKind(ValidUses(offers, at), kind) <==> HasKind(ValidUses(offers, later), kind)
  {
    var a, b := ValidUses(offers, at), ValidUses(offers, later);
    SameOfferedIds(offers, at, later);
    forall kind: Kind ensures Skills(a) == Skills(b) && (HasKind(a, kind) <==> HasKind(b, kind)) {
      SummaryOfIds(a, b, kind);
      SummaryOfIds(b, a, kind);
    }
    SummaryOfIds(a, b, AiCritic);
    SummaryOfIds(b, a, AiCritic);
  }

  /** Repeating a recorded call, at any later or earlier time, returns the record itself. */
  lemma Idempotent(r: Record, offers: seq<Offer>, at: Option<int>, later: Option<int>)
    requires ConsistentHistory(r) && Counts(r, at)
    ensures RecordUse(RecordUse(r, offers, at), offers, later) == RecordUse(r, offers, at)
  {
    var next := RecordUse(r, offers, at);
    if Counts(r, later) {
      var uses, again := ValidUses(offers, at.value), ValidUses(offers, later.value);
      SameIds(offers, at.value, later.value);
      SkillsAreNamed(r, uses);
      SkillsAreNamed(next, again);
      if NothingNew(r, offers, at.value) {
        UnchangedStays(r, offers, at.value, later.value);
      } else {
        NothingLeft(r, offers, at.value, later.value);
        assert Elements(next.skills) + Skills(again) == Elements(r.skills) + Skills(uses);
      }
    }
  }

  lemma UnchangedStays(r: Record, offers: seq<Offer>, at: int, later: int)
    requires ConsistentHistory(r) && at >= r.started && NothingNew(r, offers, at)
    ensures NothingNew(r, offers, later)
  {
    SameIds(offers, at, later);
    NothingLeft(r, offers, at, later);
    assert r.participants + [] == r.participants;
  }

  // ---------------------------------------------------------------- whole runs

  datatype Call = Call(offers: seq<Offer>, at: Option<int>)

  function Run(started: int, complete: bool, calls: seq<Call>): Record {
    if calls == [] then NewRecord(started, complete)
    else
      var last := calls[|calls| - 1];
      RecordUse(Run(started, complete, calls[..|calls| - 1]), last.offers, last.at)
  }

  /** Every valid use offered by a call that counts, in order. */
  function Offered(started: int, calls: seq<Call>): seq<Use> {
    if calls == [] then []
    else
      var last := calls[|calls| - 1];
      var earlier := Offered(started, calls[..|calls| - 1]);
      if last.at.Some? && last.at.value >= started then earlier + ValidUses(last.offers, last.at.value) else earlier
  }

  /** The time of the first counted call without participants. */
  function FirstEmpty(started: int, calls: seq<Call>): Option<int> {
    if calls == [] then None
    else
      var last, earlier := calls[|calls| - 1], FirstEmpty(started, calls[..|calls| - 1]);
      if earlier.Some? then earlier
      else if last.offers == [] && last.at.Some? && last.at.value >= started then last.at else None
  }

  predicate SawInvalid(started: int, calls: seq<Call>) {
    exists i :: 0 <= i < |calls| && calls[i].at.Some? && calls[i].at.value >= started && AnyInvalid(calls[i].offers)
  }

  /** The participant list against everything offered. */
  predicate ListsFirst(r: Record, offered: seq<Use>) {
    var first := FirstUses(offered, {});
    r.participants == Prefix(first, MAX_PARTICIPANTS) && (r.limited <==> |first| > MAX_PARTICIPANTS)
  }

  /** The flags against everything offered, listed or not. */
  predicate FlagsAll(r: Record, offered: seq<Use>) {
    && r.skills == SkillList(Skills(offered))
    && (r.ai <==> HasKind(offered, AiCritic))
    && (r.champion <==> HasKind(offered, Champion))
  }

  predicate NotesCalls(r: Record, started: int, calls: seq<Call>) {
    && r.started == started
    && r.firstBaseline == FirstEmpty(started, calls)
    && (r.baseline <==> r.firstBaseline.Some?)
    && (r.unattributed <==> SawInvalid(started, calls))
  }

  /** The record against the calls themselves. */
  predicate Describes(r: Record, started: int, calls: seq<Call>) {
    var offered := Offered(started, calls);
    ListsFirst(r, offered) && FlagsAll(r, offered) && NotesCalls(r, started, calls)
  }

  lemma PrefixAppend<T>(first: seq<T>, added: seq<T>, n: nat)
    ensures |first| <= n ==> first + Prefix(added, n - |first|) == Prefix(first + added, n)
    ensures |first| > n ==> Prefix(first, n) == Prefix(first + added, n)
  {
  }

  /** The list so far and one more batch: still the first identities ever offered. */
  lemma ListStep(a: seq<Use>, b: seq<Use>, first: seq<Use>, listed: seq<Use>, added: seq<Use>)
    requires first == FirstUses(a, {}) && listed == Prefix(first, MAX_PARTICIPANTS)
    requires added == FirstUses(b, Ids(listed))
    ensures listed + Prefix(added, Max(0, MAX_PARTICIPANTS - |Ids(listed)|))
            == Prefix(FirstUses(a + b, {}), MAX_PARTICIPANTS)
    ensures |FirstUses(a + b, {})| > MAX_PARTICIPANTS <==>
            |first| > MAX_PARTICIPANTS || |Ids(listed)| + |added| > MAX_PARTICIPANTS
  {
    FirstUsesAre(a, {});
    PrefixIds(first, MAX_PARTICIPANTS);
    IdsSize(listed);
    var more := FirstUses(b, Ids(a));
    assert FirstUses(a + b, {}) == first + more by {
      FirstUsesConcat(a, b, {});
      assert {} + Ids(a) == Ids(a);
    }
    PrefixAppend(first, more, MAX_PARTICIPANTS);
    if |first| > MAX_PARTICIPANTS {
      assert listed + [] == listed;
    }
  }

  lemma SummaryStep(r: Record, a: seq<Use>, uses: seq<Use>)
    requires r.skills == SkillList(Skills(a))
    ensures SkillList(Elements(r.skills) + Skills(uses)) == SkillList(Skills(a + uses))
    ensures HasKind(a + uses, AiCritic) <==> HasKind(a, AiCritic) || HasKind(uses, AiCritic)
    ensures HasKind(a + uses, Champion) <==> HasKind(a, Champion) || HasKind(uses, Champion)
  {
    SkillListIs(Skills(a));
    SummaryConcat(a, uses, AiCritic);
    SummaryConcat(a, uses, Champion);
  }

  lemma InvalidStep(started: int, calls: seq<Call>)
    requires calls != []
    ensures var last := calls[|calls| - 1];
            SawInvalid(started, calls) <==>
              || SawInvalid(started, calls[..|calls| - 1])
              || (last.at.Some? && last.at.value >= started && AnyInvalid(last.offers))
  {
    var init := calls[..|calls| - 1];
    assert forall i :: 0 <= i < |init| ==> init[i] == calls[i];
    assert SawInvalid(started, calls) ==>
        exists i :: 0 <= i < |calls| && calls[i].at.Some? && calls[i].at.value >= started
                    && AnyInvalid(calls[i].offers);
  }

  lemma UpdatedLists(r: Record, offers: seq<Offer>, at: int, a: seq<Use>)
    requires ListsFirst(r, a)
    ensures ListsFirst(Updated(r, offers, at), a + ValidUses(offers, at))
  {
    var uses := ValidUses(offers, at);
    ListStep(a, uses, FirstUses(a, {}), r.participants, FirstUses(uses, Ids(r.participants)));
  }

  lemma UpdatedFlags(r: Record, offers: seq<Offer>, at: int, a: seq<Use>)
    requires FlagsAll(r, a)
    ensures FlagsAll(Updated(r, offers, at), a + ValidUses(offers, at))
  {
    SummaryStep(r, a, ValidUses(offers, at));
  }

  lemma UpdatedNotes(r: Record, started: int, calls: seq<Call>)
    requires calls != [] && NotesCalls(r, started, calls[..|calls| - 1])
    requires var last := calls[|calls| - 1]; last.at.Some? && last.at.value >= started
    ensures var last := calls[|calls| - 1]; NotesCalls(Updated(r, last.offers, last.at.value), started, calls)
  {
    InvalidStep(started, calls);
  }

  lemma UpdatedDescribes(r: Record, started: int, calls: seq<Call>)
    requires calls != [] && Describes(r, started, calls[..|calls| - 1])
    requires var last := calls[|calls| - 1]; last.at.Some? && last.at.value >= started
    ensures var last := calls[|calls| - 1]; Describes(Updated(r, last.offers, last.at.value), started, calls)
  {
    var last := calls[|calls| - 1];
    var a := Offered(started, calls[..|calls| - 1]);
    UpdatedLists(r, last.offers, last.at.value, a);
    UpdatedFlags(r, last.offers, last.at.value, a);
    UpdatedNotes(r, started, calls);
  }

  lemma SkippedDescribes(r: Record, started: int, calls: seq<Call>)
    requires calls != [] && Describes(r, started, calls[..|calls| - 1])
    requires var last := calls[|calls| - 1]; last.at.None? || last.at.value < started
    ensures Describes(r, started, calls)
  {
    InvalidStep(started, calls);
  }

  /** From a new record: the first 128 identities with their first times, and exact flags for all. */
  lemma {:induction false} RecordDescribesRun(started: int, complete: bool, calls: seq<Call>)
    ensures Describes(Run(started, complete, calls), started, calls)
    ensures ConsistentHistory(Run(started, complete, calls)) && Run(started, complete, calls).complete == complete
  {
    if calls == [] {
      assert Elements<Skill>([]) == {};
    } else {
      var init, last := calls[..|calls| - 1], calls[|calls| - 1];
      RecordDescribesRun(started, complete, init);
      var r := Run(started, complete, init);
      RecordKeepsHistory(r, last.offers, last.at);
      if Counts(r, last.at) {
        UpdatedDescribes(r, started, calls);
        if NothingNew(r, last.offers, last.at.value) {
          UnchangedIsUpdated(r, last.offers, last.at.value);
        }
      } else {
        SkippedDescribes(r, started, calls);
      }
    }
  }

  /** The shortcut returns what the update would have built. */
  lemma UnchangedIsUpdated(r: Record, offers: seq<Offer>, at: int)
    requires ConsistentHistory(r) && NothingNew(r, offers, at)
    ensures Updated(r, offers, at) == r
  {
    assert r.participants + [] == r.participants;
  }
}
