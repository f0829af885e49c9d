/** Conservative crash-recovery decisions (`src/utteran_control/recovery.py`). */
module Recovery {
  import opened Basics

  datatype Liveness = Alive | Gone | PidReused | Unknown

  datatype LaunchState = Intended | Confirmed | Failed

  datatype Reason = OwnerLost | PidIsReused | OwnerUnverified | LaunchUnconfirmed | ChildAlive

  datatype Decision = OwnerAlive | Interrupt | Required(reason: Reason)

  /** What a verifier reports, or that it raised or answered something else. */
  datatype Observation = Reports(liveness: Liveness) | Raises

  function SafeCheck(o: Observation): Liveness {
    match o
    case Reports(l) => l
    case Raises => Unknown
  }

  function Decide(owner: Liveness, launch: LaunchState, child: Option<Liveness>): Decision {
    if owner.Alive? then OwnerAlive
    else if owner.PidReused? then Required(PidIsReused)
    else if !owner.Gone? then Required(OwnerUnverified)
    else if launch.Failed? then Interrupt
    else if launch.Intended? || child.None? then Required(LaunchUnconfirmed)
    else
      match child.value
      case Gone => Interrupt
      case Alive => Required(ChildAlive)
      case PidReused => Required(PidIsReused)
      case Unknown => Required(OwnerUnverified)
  }

  /** A record is interrupted exactly on positive evidence: the owner is verified gone, and the
      launch is known to have failed or the recorded child is verified gone too. */
  lemma InterruptsOnEvidenceOnly(owner: Observation, launch: LaunchState, child: Option<Observation>)
    ensures Decide(SafeCheck(owner), launch, if child.Some? then Some(SafeCheck(child.value)) else None).Interrupt?
       <==> owner == Reports(Gone) && (launch.Failed? || (launch.Confirmed? && child == Some(Reports(Gone))))
  {
  }

  /** What is reported about the owner, and about the child of a confirmed launch whose owner is
      gone, decides everything else: an owner who lives keeps its slot, and recovery is required
      with the reason that names what could not be ruled out. */
  lemma DecisionsByEvidence(owner: Observation, launch: LaunchState, child: Option<Observation>)
    ensures var decision := Decide(SafeCheck(owner), launch, if child.Some? then Some(SafeCheck(child.value)) else None);
            var gone, confirmed := owner == Reports(Gone), launch.Confirmed? && child.Some?;
            && (decision.OwnerAlive? <==> owner == Reports(Alive))
            && (decision == Required(PidIsReused)
                <==> owner == Reports(PidReused) || (gone && confirmed && child == Some(Reports(PidReused))))
            && (decision == Required(OwnerUnverified)
                <==> owner in {Raises, Reports(Unknown)} || (gone && confirmed && child.value in {Raises, Reports(Unknown)}))
            && (decision == Required(LaunchUnconfirmed) <==> gone && !launch.Failed? && !confirmed)
            && (decision == Required(ChildAlive) <==> gone && confirmed && child == Some(Reports(Alive)))
  {
  }
}
