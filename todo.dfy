/**
 * The validation rules of the Todo model (app/models/todo.rb): a pure function from a
 * candidate's attributes and the other stored rows to the list of violated rules.
 */
module TodoModel {
  import opened Wrappers
  import opened Text

  /** The three attributes a client may write; nil is `None`. The id is not among them. */
  datatype Attrs = Attrs(title: Option<string>, description: Option<string>, completed: Option<bool>)

  /** A stored row: its primary key and its attributes. */
  datatype Todo = Todo(id: int, attrs: Attrs)

  const TitleMinimum: nat := 2
  const TitleMaximum: nat := 100
  const DescriptionMaximum: nat := 500

  /** One failed rule, as `errors.add` records it. */
  datatype Violation =
    | TitleBlank            // presence: true
    | TitleTooShort         // length: { minimum: 2 }
    | TitleTooLong          // length: { maximum: 100 }
    | TitleTaken            // uniqueness: true
    | DescriptionTooLong    // length: { maximum: 500 }, allow_blank: true
    | CompletedNotIncluded  // inclusion: { in: [true, false] }
    | TitleOnlyNumbers      // title_cannot_be_all_numbers

  /** Position of each rule in the order the model declares, and so runs, them. */
  function Rank(v: Violation): nat {
    match v
    case TitleBlank => 0
    case TitleTooShort => 1
    case TitleTooLong => 2
    case TitleTaken => 3
    case DescriptionTooLong => 4
    case CompletedNotIncluded => 5
    case TitleOnlyNumbers => 6
  }

  /**
   * The full message of a violation, where it is written in the repository; the others
   * come from the framework's locale files.
   */
  function FullMessage(v: Violation): Option<string> {
    match v
    case TitleBlank => Some("Title can't be blank")
    case TitleTaken => Some("Title has already been taken")
    case TitleOnlyNumbers => Some("Title cannot be only numbers")
    case _ => None
  }

  /** `present?` on a nil-able string. */
  predicate Present(s: Option<string>) {
    s.Some? && !IsBlank(s.value)
  }

  /** The length the length validator measures: nil counts as 0. */
  function Length(s: Option<string>): nat {
    if s.Some? then |s.value| else 0
  }

  /** Some other row already holds this title (exact, case-sensitive comparison). */
  predicate Taken(title: Option<string>, others: map<int, Todo>) {
    exists k :: k in others && others[k].attrs.title == title
  }

  /** The description rule: skipped when blank, otherwise at most 500 characters. */
  predicate DescriptionFits(d: Option<string>) {
    !Present(d) || |d.value| <= DescriptionMaximum
  }

  /** What `title_cannot_be_all_numbers` rejects. */
  predicate OnlyNumbers(title: Option<string>) {
    Present(title) && AllDigits(title.value)
  }

  /** Every rule that looks at the record alone, i.e. all of them except uniqueness. */
  predicate FieldRulesHold(a: Attrs) {
    && Present(a.title)
    && TitleMinimum <= Length(a.title) <= TitleMaximum
    && DescriptionFits(a.description)
    && a.completed.Some?
    && !OnlyNumbers(a.title)
  }

  /** The rules in the order the model declares, and so runs, them. */
  const Rules: seq<Violation> := [
    TitleBlank, TitleTooShort, TitleTooLong, TitleTaken,
    DescriptionTooLong, CompletedNotIncluded, TitleOnlyNumbers
  ]

  /** The violations listed in strictly increasing rule order (so none twice). */
  predicate Ordered(r: seq<Violation>) {
    forall i, j :: 0 <= i < j < |r| ==> Rank(r[i]) < Rank(r[j])
  }

  /** Whether the candidate breaks the rule that reports `v`. */
  predicate Broken(a: Attrs, others: map<int, Todo>, v: Violation) {
    match v
    case TitleBlank => !Present(a.title)
    case TitleTooShort => Length(a.title) < TitleMinimum
    case TitleTooLong => Length(a.title) > TitleMaximum
    case TitleTaken => Taken(a.title, others)
    case DescriptionTooLong => !DescriptionFits(a.description)
    case CompletedNotIncluded => a.completed.None?
    case TitleOnlyNumbers => OnlyNumbers(a.title)
  }

  /** Runs the given rules one after another, collecting the violation of each broken one. */
  function RunRules(rules: seq<Violation>, a: Attrs, others: map<int, Todo>): (r: seq<Violation>)
    ensures forall v :: v in r <==> v in rules && Broken(a, others, v)
    ensures Ordered(rules) ==> Ordered(r)
  {
    if rules == [] then []
    else
      var rest := RunRules(rules[1..], a, others);
      assert forall i :: 0 <= i < |rest| ==> rest[i] in rules[1..];
      (if Broken(a, others, rules[0]) then [rules[0]] else []) + rest
  }

  /**
   * Runs every rule, none short-circuiting the others, and lists the ones that fail
   * in declaration order. `others` is the table without the candidate's own row.
   */
  function Validate(a: Attrs, others: map<int, Todo>): (r: seq<Violation>)
    ensures forall v :: v in r <==> Broken(a, others, v)
    ensures Ordered(r)
  {
    RulesCoverEveryViolation();
    RunRules(Rules, a, others)
  }

  /** The rule table lists every violation, each once, in rank order. */
  lemma RulesCoverEveryViolation()
    ensures forall v :: v in Rules
    ensures Ordered(Rules)
  {
    forall v ensures v in Rules {
      assert Rules[Rank(v)] == v;
    }
    forall i, j | 0 <= i < j < |Rules| ensures Rank(Rules[i]) < Rank(Rules[j]) {
      assert Rank(Rules[i]) == i && Rank(Rules[j]) == j;
    }
  }

  /** A record is valid exactly when every rule holds. */
  lemma ValidIffRulesHold(a: Attrs, others: map<int, Todo>)
    ensures Validate(a, others) == [] <==> FieldRulesHold(a) && !Taken(a.title, others)
  {
    var r := Validate(a, others);
    if r == [] {
      assert !Broken(a, others, TitleBlank) && !Broken(a, others, TitleTooShort);
      assert !Broken(a, others, TitleTooLong) && !Broken(a, others, TitleTaken);
      assert !Broken(a, others, DescriptionTooLong) && !Broken(a, others, CompletedNotIncluded);
      assert !Broken(a, others, TitleOnlyNumbers);
    } else {
      assert r[0] in r;
      assert Broken(a, others, r[0]);
    }
  }

  /** The title "1" breaks two rules at once: both are reported. */
  lemma SingleDigitTitleBreaksTwoRules(d: Option<string>, c: Option<bool>, others: map<int, Todo>)
    ensures var r := Validate(Attrs(Some("1"), d, c), others);
      TitleTooShort in r && TitleOnlyNumbers in r && TitleBlank !in r
  {
    var t := Some("1");
    assert !IsSpace(t.value[0]);
    assert Present(t) && AllDigits(t.value);
    var a := Attrs(t, d, c);
    assert Broken(a, others, TitleTooShort) && Broken(a, others, TitleOnlyNumbers);
    assert !Broken(a, others, TitleBlank);
  }

  /** A missing or white-space-only title is reported as "Title can't be blank". */
  lemma BlankTitleReported(a: Attrs, others: map<int, Todo>)
    requires a.title.None? || IsBlank(a.title.value)
    ensures TitleBlank in Validate(a, others)
    ensures FullMessage(TitleBlank) == Some("Title can't be blank")
  {
  }

  /** A blank description is never reported, whatever its length. */
  lemma BlankDescriptionAccepted(a: Attrs, others: map<int, Todo>)
    requires a.description.None? || IsBlank(a.description.value)
    ensures DescriptionTooLong !in Validate(a, others)
  {
  }

  /** A title of digits only, such as "123", is reported as "Title cannot be only numbers". */
  lemma DigitsOnlyTitleReported(a: Attrs, others: map<int, Todo>)
    requires a.title.Some? && AllDigits(a.title.value)
    ensures TitleOnlyNumbers in Validate(a, others)
    ensures FullMessage(TitleOnlyNumbers) == Some("Title cannot be only numbers")
  {
    assert !IsSpace(a.title.value[0]);
    assert Broken(a, others, TitleOnlyNumbers);
  }

  /** A single character other than 0-9 anywhere in the title satisfies the only-numbers rule. */
  lemma NonDigitSatisfiesNumbersRule(a: Attrs, others: map<int, Todo>, i: int)
    requires a.title.Some? && 0 <= i < |a.title.value| && !IsDigit(a.title.value[i])
    ensures TitleOnlyNumbers !in Validate(a, others)
  {
  }

  /** No two rows share a title: what the unique index on todos.title guarantees. */
  ghost predicate TitlesUnique(rows: map<int, Todo>) {
    forall j, k :: j in rows && k in rows && j != k ==> rows[j].attrs.title != rows[k].attrs.title
  }

  /** The table invariant: every row passes the record rules and titles are unique. */
  ghost predicate Consistent(rows: map<int, Todo>) {
    && (forall k :: k in rows ==> FieldRulesHold(rows[k].attrs))
    && TitlesUnique(rows)
  }

  /**
   * The table invariant is the same as: every stored row, re-validated against the rest
   * of the table, is valid. In particular re-saving a row unchanged never reports its
   * own title as taken.
   */
  lemma ConsistentIffEveryRowRevalidates(rows: map<int, Todo>)
    ensures Consistent(rows) <==> forall k :: k in rows ==> Validate(rows[k].attrs, rows - {k}) == []
  {
    if Consistent(rows) {
      forall k | k in rows ensures Validate(rows[k].attrs, rows - {k}) == [] {
        ValidIffRulesHold(rows[k].attrs, rows - {k});
      }
    }
    if forall k :: k in rows ==> Validate(rows[k].attrs, rows - {k}) == [] {
      forall k | k in rows ensures FieldRulesHold(rows[k].attrs) {
        ValidIffRulesHold(rows[k].attrs, rows - {k});
      }
      forall j, k | j in rows && k in rows && j != k
        ensures rows[j].attrs.title != rows[k].attrs.title
      {
        ValidIffRulesHold(rows[k].attrs, rows - {k});
        assert j in rows - {k};
      }
    }
  }
}
