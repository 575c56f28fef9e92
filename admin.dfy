/** `POST /api/admin/problems`: the required-field check before the insert. */
module AdminProblems {
  import opened Wrappers

  /** The row inserted into `problems`; a missing week or position is stored as null. */
  datatype NewProblem = NewProblem(title: string, difficulty: string, link: string, week: Option<int>, position: Option<int>)

  datatype AddResult = Accepted(problem: NewProblem) | Rejected(status: int, error: string)

  /** A string field of the request body that is present and not empty. */
  predicate Truthy(s: Option<string>) {
    s.Some? && s.value != ""
  }

  /**
   * The request is accepted exactly when title, difficulty and link are all
   * given and non-empty; the accepted row carries the request's fields
   * unchanged, and a rejection is a 400 naming the three fields.
   */
  function ValidateAddProblem(title: Option<string>, difficulty: Option<string>, link: Option<string>,
                              week: Option<int>, position: Option<int>): (r: AddResult)
    ensures r.Accepted? <==> Truthy(title) && Truthy(difficulty) && Truthy(link)
    ensures r.Rejected? ==> r == Rejected(400, "title, difficulty, link are required")
    ensures r.Accepted? ==>
      && r.problem.title == title.value && r.problem.difficulty == difficulty.value
      && r.problem.link == link.value && r.problem.week == week && r.problem.position == position
  {
    if !Truthy(title) || !Truthy(difficulty) || !Truthy(link) then
      Rejected(400, "title, difficulty, link are required")
    else
      Accepted(NewProblem(title.value, difficulty.value, link.value, week, position))
  }
}
