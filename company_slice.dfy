/**
 * The `company` slice of the client's Redux store: its initial state and its four case reducers.
 *
 * `Reduce` is the slice's reducer as a function from the old state and an action to the new
 * state; `CompanyDraft` is the draft object each case reducer assigns one field of.
 * Companies are values of an arbitrary type `C`.
 */
module CompanySlice {
  import opened Wrappers

  datatype CompanyState<C> = CompanyState(
    singleCompany: Option<C>,
    companies: seq<C>,
    searchCompanyByText: string)

  /** The slice's actions with their payloads; `None` is the payload `null`. */
  datatype CompanyAction<C> =
    | SetSingleCompany(company: Option<C>)
    | SetCompanies(list: seq<C>)
    | SetSearchCompanyByText(text: string)
    | SetCompanyDetails(details: Option<C>)
  {
    /** The actions that write `singleCompany`. */
    predicate SetsSingleCompany()
    {
      SetSingleCompany? || SetCompanyDetails?
    }
  }

  /** The initial state: no single company, no companies, an empty search text. */
  function InitialState<C>(): (s: CompanyState<C>)
    ensures s.singleCompany.None? && s.companies == [] && s.searchCompanyByText == ""
  {
    CompanyState(None, [], "")
  }

  /** The slice's reducer: each action sets its one field to the payload and leaves the others alone. */
  function Reduce<C>(s: CompanyState<C>, a: CompanyAction<C>): (t: CompanyState<C>)
    ensures !a.SetsSingleCompany() ==> t.singleCompany == s.singleCompany
    ensures !a.SetCompanies? ==> t.companies == s.companies
    ensures !a.SetSearchCompanyByText? ==> t.searchCompanyByText == s.searchCompanyByText
    ensures a.SetSingleCompany? ==> t.singleCompany == a.company
    ensures a.SetCompanyDetails? ==> t.singleCompany == a.details
    ensures a.SetCompanies? ==> t.companies == a.list
    ensures a.SetSearchCompanyByText? ==> t.searchCompanyByText == a.text
  {
    match a
    case SetSingleCompany(p) => s.(singleCompany := p)
    case SetCompanies(p) => s.(companies := p)
    case SetSearchCompanyByText(p) => s.(searchCompanyByText := p)
    case SetCompanyDetails(p) => s.(singleCompany := p)
  }

  /** `setCompanyDetails` does exactly what `setSingleCompany` does. */
  lemma DetailsIsSingleCompany<C>(s: CompanyState<C>, p: Option<C>)
    ensures Reduce(s, SetCompanyDetails(p)) == Reduce(s, SetSingleCompany(p))
  {
  }

  /** Dispatching an action twice is dispatching it once. */
  lemma ReduceIdempotent<C>(s: CompanyState<C>, a: CompanyAction<C>)
    ensures Reduce(Reduce(s, a), a) == Reduce(s, a)
  {
  }

  /** The state after a sequence of actions, dispatched in order. */
  function ReduceAll<C>(s: CompanyState<C>, actions: seq<CompanyAction<C>>): CompanyState<C>
    decreases |actions|
  {
    if actions == [] then s else ReduceAll(Reduce(s, actions[0]), actions[1..])
  }

  /** The last company written by an action of `actions`, or `current` if none writes one. */
  function LastSingleCompany<C>(current: Option<C>, actions: seq<CompanyAction<C>>): Option<C>
  {
    if actions == [] then current
    else
      var a := actions[|actions| - 1];
      if a.SetSingleCompany? then a.company
      else if a.SetCompanyDetails? then a.details
      else LastSingleCompany(current, actions[..|actions| - 1])
  }

  /** Dispatching one more action at the end is reducing with it after the others. */
  lemma {:induction false} ReduceAllSnoc<C>(s: CompanyState<C>, actions: seq<CompanyAction<C>>, a: CompanyAction<C>)
    ensures ReduceAll(s, actions + [a]) == Reduce(ReduceAll(s, actions), a)
    decreases |actions|
  {
    if actions != [] {
      assert (actions + [a])[1..] == actions[1..] + [a];
      ReduceAllSnoc(Reduce(s, actions[0]), actions[1..], a);
    }
  }

  /**
   * The last write wins: after any sequence of actions, `singleCompany` is the payload of the last
   * `setSingleCompany` or `setCompanyDetails`, and what it was before when there is none.
   */
  lemma {:induction false} LastWriteWins<C>(s: CompanyState<C>, actions: seq<CompanyAction<C>>)
    ensures ReduceAll(s, actions).singleCompany == LastSingleCompany(s.singleCompany, actions)
  {
    if actions != [] {
      var init := actions[..|actions| - 1];
      var a := actions[|actions| - 1];
      assert actions == init + [a];
      ReduceAllSnoc(s, init, a);
      LastWriteWins(s, init);
    }
  }

  /** The draft of the company state that the case reducers assign to. */
  class CompanyDraft<C> {
    var singleCompany: Option<C>
    var companies: seq<C>
    var searchCompanyByText: string

    /** The state the draft holds. */
    function State(): CompanyState<C>
      reads this
    {
      CompanyState(singleCompany, companies, searchCompanyByText)
    }

    constructor ()
      ensures State() == InitialState()
    {
      singleCompany := None;
      companies := [];
      searchCompanyByText := "";
    }

    /** `setSingleCompany`. */
    method SetSingleCompany(p: Option<C>)
      modifies this
      ensures singleCompany == p
      ensures companies == old(companies) && searchCompanyByText == old(searchCompanyByText)
      ensures State() == Reduce(old(State()), CompanyAction.SetSingleCompany(p))
    {
      singleCompany := p;
    }

    /** `setCompanies`. */
    method SetCompanies(p: seq<C>)
      modifies this
      ensures companies == p
      ensures singleCompany == old(singleCompany) && searchCompanyByText == old(searchCompanyByText)
      ensures State() == Reduce(old(State()), CompanyAction.SetCompanies(p))
    {
      companies := p;
    }

    /** `setSearchCompanyByText`. */
    method SetSearchCompanyByText(p: string)
      modifies this
      ensures searchCompanyByText == p
      ensures singleCompany == old(singleCompany) && companies == old(companies)
      ensures State() == Reduce(old(State()), CompanyAction.SetSearchCompanyByText(p))
    {
      searchCompanyByText := p;
    }

    /** `setCompanyDetails`. */
    method SetCompanyDetails(p: Option<C>)
      modifies this
      ensures singleCompany == p
      ensures companies == old(companies) && searchCompanyByText == old(searchCompanyByText)
      ensures State() == Reduce(old(State()), CompanyAction.SetCompanyDetails(p))
    {
      singleCompany := p;
    }
  }
}
