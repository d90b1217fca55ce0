/** Recording one call: validate each offer in turn, then copy only on a new fact. */
module Strategy {
  import opened Common
  import opened StrategyModel

  /** Split the offers into valid uses and a note that something could not be attributed. */
  method Validate(offers: seq<Offer>, at: int) returns (valid: seq<Use>, invalid: bool)
    ensures valid == ValidUses(offers, at) && invalid == AnyInvalid(offers)
  {
    valid, invalid := [], false;
    for i := 0 to |offers|
      invariant valid == ValidUses(offers[..i], at)
      invariant invalid <==> exists k :: 0 <= k < i && !Acceptable(offers[k])
    {
      assert offers[..i + 1][..i] == offers[..i];
      if Acceptable(offers[i]) {
        valid := valid + [Use(Identity(offers[i].kind.value, offers[i].skill.value, offers[i].version), at)];
      } else {
        invalid := true;
      }
    }
    assert offers[..|offers|] == offers;
  }

  /** The distinct valid identities not yet listed, in order of first appearance. */
  method NewUses(uses: seq<Use>, known: set<Identity>) returns (additions: seq<Use>)
    ensures additions == FirstUses(uses, known)
  {
    additions := [];
    var seen, rest := known, uses;
    while rest != []
      invariant additions + FirstUses(rest, seen) == FirstUses(uses, known)
      decreases |rest|
    {
      if rest[0].id !in seen {
        additions, seen := additions + [rest[0]], seen + {rest[0].id};
      }
      rest := rest[1..];
    }
  }

  method Build(original: Record, offers: seq<Offer>, at: int, uses: seq<Use>, invalid: bool)
    returns (next: Record, kept: seq<Use>)
    requires uses == ValidUses(offers, at) && invalid == AnyInvalid(offers)
    ensures next == Updated(original, offers, at) && kept == Kept(original, uses)
  {
    var known := Ids(original.participants);
    var additions := NewUses(uses, known);
    kept := Prefix(additions, Max(0, MAX_PARTICIPANTS - |known|));
    next := original.(
      baseline := original.baseline || offers == [],
      firstBaseline := if original.firstBaseline.Some? then original.firstBaseline
                       else if offers == [] then Some(at) else None,
      skills := SkillList(Elements(original.skills) + Skills(uses)),
      ai := original.ai || HasKind(uses, AiCritic),
      champion := original.champion || HasKind(uses, Champion),
      limited := original.limited || |known| + |additions| > MAX_PARTICIPANTS,
      unattributed := original.unattributed || invalid,
      participants := original.participants + kept);
  }

  method RecordStrategyUse(original: Record, offers: seq<Offer>, at: Option<int>) returns (out: Record)
    ensures out == RecordUse(original, offers, at)
  {
    if at.None? || at.value < original.started {
      return original;
    }
    var uses, invalid := Validate(offers, at.value);
    var next, kept := Build(original, offers, at.value, uses, invalid);
    var same := kept == [] && next.skills == original.skills && next.ai == original.ai
                && next.champion == original.champion && next.baseline == original.baseline
                && next.limited == original.limited && next.unattributed == original.unattributed;
    out := if same then original else next;
  }
}
