/** The spend meter: checked before a provider is asked, charged afterwards. */
module Budgets {
  import opened Options
  import opened Assessments

  /** Zero or negative limits do not bind. */
  datatype Limits = Limits(maxCalls: int, maxTokens: int, maxPremium: real) {
    predicate IsZero() { maxCalls == 0 && maxTokens == 0 && maxPremium == 0.0 }
  }

  datatype Limit = Calls | Tokens | Premium

  /** The first limit that has been reached. */
  function Reached(l: Limits, s: Usage): Option<Limit> {
    if l.maxCalls > 0 && s.calls >= l.maxCalls then Some(Calls)
    else if l.maxTokens > 0 && s.TotalTokens() >= l.maxTokens then Some(Tokens)
    else if l.maxPremium > 0.0 && s.premium >= l.maxPremium then Some(Premium)
    else None
  }

  predicate Over(l: Limits, s: Usage) { Reached(l, s).Some? }

  predicate NonNegative(u: Usage) {
    u.calls >= 0 && u.promptTokens >= 0 && u.completionTokens >= 0 && u.premium >= 0.0
  }

  /** A limit once reached stays reached under every further charge. */
  lemma OverStays(l: Limits, s: Usage, u: Usage)
    requires Over(l, s) && NonNegative(u)
    ensures Over(l, Add(s, u))
  {
  }

  class Budget {
    const limits: Limits
    var spent: Usage

    constructor (limits: Limits)
      requires !limits.IsZero()
      ensures this.limits == limits && spent == NO_USAGE
    {
      this.limits, spent := limits, NO_USAGE;
    }

    method Spend(u: Usage)
      modifies this
      ensures spent == Add(old(spent), u)
      ensures NonNegative(u) && old(Over(limits, spent)) ==> Over(limits, spent)
    {
      spent := Add(spent, u);
    }

    method Check() returns (limit: Option<Limit>)
      ensures limit == Reached(limits, spent)
      ensures limit.None? <==>
              && (limits.maxCalls > 0 ==> spent.calls < limits.maxCalls)
              && (limits.maxTokens > 0 ==> spent.promptTokens + spent.completionTokens < limits.maxTokens)
              && (limits.maxPremium > 0.0 ==> spent.premium < limits.maxPremium)
    {
      limit := Reached(limits, spent);
    }

    method Exceeded() returns (over: bool)
      ensures over == Over(limits, spent)
    {
      var limit := Check();
      over := limit.Some?;
    }

    method Reset()
      modifies this
      ensures spent == NO_USAGE
      ensures (limits.maxCalls >= 0 && limits.maxTokens >= 0 && limits.maxPremium >= 0.0) ==> !Over(limits, spent)
    {
      spent := NO_USAGE;
    }
  }

  /** Nil when no limit is set; a nil budget never refuses. */
  method NewBudget(l: Limits) returns (b: Budget?)
    ensures b == null <==> l.maxCalls == 0 && l.maxTokens == 0 && l.maxPremium == 0.0
    ensures b != null ==> fresh(b) && b.limits == l && b.spent == NO_USAGE
  {
    if l.IsZero() { return null; }
    b := new Budget(l);
  }
}
