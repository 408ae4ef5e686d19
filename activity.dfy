/**
 * The activity records read from the log and the classification of a tag word:
 * five fixed lowercase words name actions, every other word names a project.
 */
module Activities {
  import opened Options
  import opened Calendar

  datatype Action = Review | Meeting | Research | Code | Docs

  /** The word that names each action. */
  function ActionWord(a: Action): string
  {
    match a
    case Review => "review"
    case Meeting => "meeting"
    case Research => "research"
    case Code => "code"
    case Docs => "docs"
  }

  const ActionWords: set<string> := {"review", "meeting", "research", "code", "docs"}

  /** `Action::from_str`: exact, case-sensitive match against the five words. */
  function ActionFromStr(input: string): (r: Result<Action, ()>)
    ensures r.Ok? ==> ActionWord(r.value) == input
  {
    if input == "review" then Ok(Review)
    else if input == "meeting" then Ok(Meeting)
    else if input == "research" then Ok(Research)
    else if input == "code" then Ok(Code)
    else if input == "docs" then Ok(Docs)
    else Err(())
  }

  /** Exactly the five words are accepted; anything else, "Review" or "other" included, is an error. */
  lemma ActionFromStrAccepts(input: string)
    ensures ActionFromStr(input).Ok? <==> input in ActionWords
  {
  }

  /** Every action is reached, from its own word: the word table is a bijection. */
  lemma ActionWordRoundTrip(a: Action)
    ensures ActionFromStr(ActionWord(a)) == Ok(a)
  {
  }

  lemma ActionWordInjective(a: Action, b: Action)
    requires ActionWord(a) == ActionWord(b)
    ensures a == b
  {
    ActionWordRoundTrip(a);
    ActionWordRoundTrip(b);
  }

  lemma ActionFromStrExamples()
    ensures ActionFromStr("other").Err? && ActionFromStr("Review").Err? && ActionFromStr("").Err?
    ensures ActionFromStr("docs") == Ok(Docs)
  {
  }

  /** A tag word classified: an action, or a project carrying the word itself. */
  datatype Type = ActionType(action: Action) | Project(name: string)

  /** `Type::from_str`: never fails. */
  function TypeFromStr(input: string): (r: Result<Type, ()>)
    ensures r.Ok?
  {
    match ActionFromStr(input)
    case Ok(a) => Ok(ActionType(a))
    case Err(_) => Ok(Project(input))
  }

  /** A tag is an action exactly when `Action::from_str` accepts it, otherwise the unchanged word is a project. */
  lemma TypeFromStrAgrees(input: string)
    ensures (exists a :: TypeFromStr(input) == Ok(ActionType(a))) <==> input in ActionWords
    ensures input in ActionWords ==> TypeFromStr(input) == Ok(ActionType(ActionFromStr(input).value))
    ensures input !in ActionWords ==> TypeFromStr(input) == Ok(Project(input))
  {
    ActionFromStrAccepts(input);
  }

  /** One logged activity: a span of minutes, a description, project labels and actions. */
  datatype Activity = Activity(
    start: DateTime,
    end: DateTime,
    description: string,
    projects: set<string>,
    actions: set<Action>)

  /** Signed whole minutes from start to end (negative when the end comes first). */
  function Duration(a: Activity): int
  {
    a.end - a.start
  }

  type Activities = seq<Activity>
}
