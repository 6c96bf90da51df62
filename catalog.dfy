/**
 * The subscription plan catalogue and the account status vocabulary.
 * Plans are looked up by the decimal text of their id, which is how
 * callback data and stored payment requests refer to them.
 */
module Catalog {
  import opened Wrappers
  import opened PyStr

  /** A subscription plan as loaded from the plan catalogue. */
  datatype Plan = Plan(id: int, name: string, price: real, durationDays: int, description: string)

  /** The first plan whose `str(id)` equals `planId`. */
  function FindPlan(plans: seq<Plan>, planId: string): (r: Option<Plan>)
    ensures r.Some? ==> r.value in plans && IntToString(r.value.id) == planId
    ensures r.None? <==> forall i :: 0 <= i < |plans| ==> IntToString(plans[i].id) != planId
    decreases |plans|
  {
    if |plans| == 0 then None
    else if IntToString(plans[0].id) == planId then Some(plans[0])
    else FindPlan(plans[1..], planId)
  }

  /** Every catalogued plan is found again by the text of its id, as a plan with that id. */
  lemma FindPlanById(plans: seq<Plan>, p: Plan)
    requires p in plans
    ensures FindPlan(plans, IntToString(p.id)).Some?
    ensures FindPlan(plans, IntToString(p.id)).value.id == p.id
  {
    var r := FindPlan(plans, IntToString(p.id));
    var i :| 0 <= i < |plans| && plans[i] == p;
    assert IntToString(plans[i].id) == IntToString(p.id);
    IntToStringInjective(r.value.id, p.id);
  }

  /** A plan reference that carries an underscore never names a plan. */
  lemma FindPlanRejectsUnderscore(plans: seq<Plan>, planId: string)
    requires '_' in planId
    ensures FindPlan(plans, planId).None?
  {
    forall i | 0 <= i < |plans|
      ensures IntToString(plans[i].id) != planId
    {
      IntToStringHasNoSeparators(plans[i].id, '_');
    }
  }

  /** The account statuses the bot names. */
  datatype UserStatus = Active | Disabled | Expired | Pending

  function StatusValue(s: UserStatus): string {
    match s
    case Active => "active"
    case Disabled => "disabled"
    case Expired => "expired"
    case Pending => "pending"
  }

  /** `UserStatus(value)`: the member with that value, if any. */
  function StatusFromValue(v: string): (r: Option<UserStatus>)
    ensures r.Some? ==> StatusValue(r.value) == v
    ensures forall s :: StatusValue(s) == v ==> r == Some(s)
  {
    if v == "active" then Some(Active)
    else if v == "disabled" then Some(Disabled)
    else if v == "expired" then Some(Expired)
    else if v == "pending" then Some(Pending)
    else None
  }
}
