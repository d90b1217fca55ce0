/**
 * The descriptive season record: who took part, since when, and exact summary flags even
 * after the participant list is full.
 */
module StrategyModel {
  import opened Common

  const MAX_PARTICIPANTS: nat := 128
  const MAX_VERSION: nat := 512

  datatype Kind = Champion | Learner | AiCritic

  /** `NoSkill` is the empty skill of the critic. */
  datatype Skill = NoSkill | Entry | Exit | Manipulation | Sizing

  datatype Identity = Identity(kind: Kind, skill: Skill, version: string)

  datatype Use = Use(id: Identity, at: int)

  /** A participant as offered; a kind or skill outside the known names is absent. */
  datatype Offer = Offer(kind: Option<Kind>, skill: Option<Skill>, version: string)

  datatype Record = Record(
    started: int,
    complete: bool,
    baseline: bool,
    firstBaseline: Option<int>,
    skills: seq<Skill>,
    ai: bool,
    champion: bool,
    unattributed: bool,
    participants: seq<Use>,
    limited: bool)

  function NewRecord(started: int, complete: bool): Record {
    Record(started, complete, false, None, [], false, false, false, [], false)
  }

  // ---------------------------------------------------------------- validation

  predicate IsSpace(c: char) {
    var n := c as int;
    || 9 <= n <= 13 || 28 <= n <= 32 || n == 0x85 || n == 0xa0 || n == 0x1680
    || 0x2000 <= n <= 0x200a || n == 0x2028 || n == 0x2029 || n == 0x202f || n == 0x205f || n == 0x3000
  }

  predicate WellFormed(id: Identity) {
    && 1 <= |id.version| <= MAX_VERSION
    && (id.kind.AiCritic? <==> id.skill.NoSkill?)
    && exists i :: 0 <= i < |id.version| && !IsSpace(id.version[i])
  }

  predicate Acceptable(o: Offer) {
    o.kind.Some? && o.skill.Some? && WellFormed(Identity(o.kind.value, o.skill.value, o.version))
  }

  /** The valid offers of one call, in order, stamped with its time. */
  function ValidUses(offers: seq<Offer>, at: int): seq<Use> {
    if offers == [] then []
    else
      var last := offers[|offers| - 1];
      var earlier := ValidUses(offers[..|offers| - 1], at);
      if !Acceptable(last) then earlier
      else earlier + [Use(Identity(last.kind.value, last.skill.value, last.version), at)]
  }

  predicate AnyInvalid(offers: seq<Offer>) {
    exists i :: 0 <= i < |offers| && !Acceptable(offers[i])
  }

  // ---------------------------------------------------------------- identities

  function Ids(uses: seq<Use>): set<Identity> {
    set u | u in uses :: u.id
  }

  predicate DistinctIds(uses: seq<Use>) {
    forall i, j :: 0 <= i < j < |uses| ==> uses[i].id != uses[j].id
  }

  /** The first use of every identity not already known. */
  function FirstUses(uses: seq<Use>, known: set<Identity>): seq<Use> {
    if uses == [] then []
    else if uses[0].id in known then FirstUses(uses[1..], known)
    else [uses[0]] + FirstUses(uses[1..], known + {uses[0].id})
  }

  function Prefix<T>(s: seq<T>, n: nat): seq<T> {
    if |s| <= n then s else s[..n]
  }

  // ---------------------------------------------------------------- summaries

  function Skills(uses: seq<Use>): set<Skill> {
    (set u | u in uses :: u.id.skill) - {NoSkill}
  }

  /** The sorted list of a set of skills. */
  function SkillList(skills: set<Skill>): seq<Skill> {
    (if Entry in skills then [Entry] else []) + (if Exit in skills then [Exit] else [])
    + (if Manipulation in skills then [Manipulation] else []) + (if Sizing in skills then [Sizing] else [])
  }

  predicate HasKind(uses: seq<Use>, kind: Kind) {
    exists i :: 0 <= i < |uses| && uses[i].id.kind == kind
  }

  // ---------------------------------------------------------------- the validator

  predicate Shape(r: Record) {
    && |r.participants| <= MAX_PARTICIPANTS && NoSkill !in r.skills
    && (forall i :: 0 <= i < |r.participants| ==> WellFormed(r.participants[i].id))
  }

  predicate Timely(r: Record) {
    && DistinctIds(r.participants) && Distinct(r.skills)
    && (r.baseline <==> r.firstBaseline.Some?)
    && (forall i :: 0 <= i < |r.participants| ==> r.participants[i].at >= r.started)
    && (r.firstBaseline.Some? ==> r.firstBaseline.value >= r.started)
  }

  predicate Summarised(r: Record) {
    if r.limited then
      && |r.participants| == MAX_PARTICIPANTS && Skills(r.participants) <= Elements(r.skills)
      && (HasKind(r.participants, AiCritic) ==> r.ai) && (HasKind(r.participants, Champion) ==> r.champion)
    else
      && Skills(r.participants) == Elements(r.skills)
      && (HasKind(r.participants, AiCritic) <==> r.ai) && (HasKind(r.participants, Champion) <==> r.champion)
  }

  predicate ConsistentHistory(r: Record) {
    Shape(r) && Timely(r) && Summarised(r)
  }

  // ---------------------------------------------------------------- recording

  /** A call before tracking started, or with an unreadable time, changes nothing. */
  predicate Counts(r: Record, at: Option<int>) {
    at.Some? && at.value >= r.started
  }

  function Kept(r: Record, uses: seq<Use>): seq<Use> {
    Prefix(FirstUses(uses, Ids(r.participants)), Max(0, MAX_PARTICIPANTS - |Ids(r.participants)|))
  }

  function Updated(r: Record, offers: seq<Offer>, at: int): Record {
    var uses := ValidUses(offers, at);
    r.(baseline := r.baseline || offers == [],
       firstBaseline := if r.firstBaseline.Some? then r.firstBaseline else if offers == [] then Some(at) else None,
       skills := SkillList(Elements(r.skills) + Skills(uses)),
       ai := r.ai || HasKind(uses, AiCritic),
       champion := r.champion || HasKind(uses, Champion),
       limited := r.limited || |Ids(r.participants)| + |FirstUses(uses, Ids(r.participants))| > MAX_PARTICIPANTS,
       unattributed := r.unattributed || AnyInvalid(offers),
       participants := r.participants + Kept(r, uses))
  }

  /** Nothing new: the original record is returned, so a repeated tick writes nothing. */
  predicate NothingNew(r: Record, offers: seq<Offer>, at: int) {
    var next := Updated(r, offers, at);
    && Kept(r, ValidUses(offers, at)) == [] && next.skills == r.skills && next.ai == r.ai && next.champion == r.champion
    && next.baseline == r.baseline && next.limited == r.limited && next.unattributed == r.unattributed
  }

  function RecordUse(r: Record, offers: seq<Offer>, at: Option<int>): Record {
    if !Counts(r, at) || NothingNew(r, offers, at.value) then r else Updated(r, offers, at.value)
  }

  // ---------------------------------------------------------------- facts about first uses

  lemma IdsPush(u: Use, uses: seq<Use>)
    ensures Ids([u] + uses) == {u.id} + Ids(uses)
    ensures DistinctIds(uses) && u.id !in Ids(uses) ==> DistinctIds([u] + uses)
  {
    assert forall i :: 0 <= i < |uses| ==> uses[i].id in Ids(uses);
  }

  lemma {:induction false} FirstUsesAre(uses: seq<Use>, known: set<Identity>)
    ensures DistinctIds(FirstUses(uses, known))
    ensures Ids(FirstUses(uses, known)) == Ids(uses) - known
    ensures forall u :: u in FirstUses(uses, known) ==> u in uses
  {
    if uses == [] {
    } else {
      var rest := uses[1..];
      assert uses == [uses[0]] + rest;
      IdsPush(uses[0], rest);
      if uses[0].id in known {
        FirstUsesAre(rest, known);
      } else {
        FirstUsesAre(rest, known + {uses[0].id});
        IdsPush(uses[0], FirstUses(rest, known + {uses[0].id}));
      }
    }
  }

  lemma {:induction false} IdsSize(uses: seq<Use>)
    requires DistinctIds(uses)
    ensures |Ids(uses)| == |uses|
  {
    if uses == [] {
    } else {
      var init, last := uses[..|uses| - 1], uses[|uses| - 1];
      IdsSize(init);
      assert uses == init + [last];
      assert last.id !in Ids(init);
      assert Ids(uses) == Ids(init) + {last.id};
    }
  }

  lemma {:induction false} FirstUsesConcat(a: seq<Use>, b: seq<Use>, known: set<Identity>)
    ensures FirstUses(a + b, known) == FirstUses(a, known) + FirstUses(b, known + Ids(a))
  {
    if a == [] {
      assert a + b == b;
      assert known + Ids(a) == known;
    } else {
      var rest := a[1..];
      assert (a + b)[1..] == rest + b;
      assert a == [a[0]] + rest;
      assert Ids(a) == {a[0].id} + Ids(rest);
      if a[0].id in known {
        FirstUsesConcat(rest, b, known);
        assert known + Ids(a) == known + Ids(rest);
      } else {
        FirstUsesConcat(rest, b, known + {a[0].id});
        assert known + {a[0].id} + Ids(rest) == known + Ids(a);
      }
    }
  }

  lemma ListedExactly(skills: set<Skill>, s: Skill)
    ensures s in SkillList(skills) <==> s in skills && s != NoSkill
  {
    match s
    case NoSkill =>
    case Entry =>
    case Exit =>
    case Manipulation =>
    case Sizing =>
  }

  lemma SkillListIs(skills: set<Skill>)
    requires NoSkill !in skills
    ensures Distinct(SkillList(skills)) && Elements(SkillList(skills)) == skills && NoSkill !in SkillList(skills)
  {
    var list := SkillList(skills);
    assert Distinct(list);
    forall s: Skill ensures s in list <==> s in skills {
      ListedExactly(skills, s);
    }
  }

  lemma {:induction false} ValidUsesAre(offers: seq<Offer>, at: int)
    ensures forall u :: u in ValidUses(offers, at) ==> u.at == at && WellFormed(u.id)
  {
    if offers == [] {
    } else {
      ValidUsesAre(offers[..|offers| - 1], at);
    }
  }

  lemma SummaryConcat(a: seq<Use>, b: seq<Use>, kind: Kind)
    ensures Skills(a + b) == Skills(a) + Skills(b)
    ensures HasKind(a + b, kind) <==> HasKind(a, kind) || HasKind(b, kind)
    ensures Ids(a + b) == Ids(a) + Ids(b)
  {
    if HasKind(a, kind) {
      var i :| 0 <= i < |a| && a[i].id.kind == kind;
      assert (a + b)[i].id.kind == kind;
    }
    if HasKind(b, kind) {
      var i :| 0 <= i < |b| && b[i].id.kind == kind;
      assert (a + b)[|a| + i].id.kind == kind;
    }
  }

  /** Summaries depend only on the identities involved. */
  lemma SummaryOfIds(a: seq<Use>, b: seq<Use>, kind: Kind)
    requires Ids(a) <= Ids(b)
    ensures Skills(a) <= Skills(b)
    ensures HasKind(a, kind) ==> HasKind(b, kind)
  {
    forall s | s in Skills(a) ensures s in Skills(b) {
      var u :| u in a && u.id.skill == s;
      assert u.id in Ids(b);
    }
    if HasKind(a, kind) {
      var i :| 0 <= i < |a| && a[i].id.kind == kind;
      assert a[i].id in Ids(a);
      var u :| u in b && u.id == a[i].id;
      var j :| 0 <= j < |b| && b[j] == u;
    }
  }
}
