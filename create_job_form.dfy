/** The job form of Client/src/components/jobs/CreateJob.jsx: the updaters
    that edit the form state, the list editors for requirements and skills,
    and the cleaning done on submit. */
module CreateJobForm {
  import opened Common
  import opened Text

  /** The salary inputs, kept as the typed text. */
  datatype SalaryInput = SalaryInput(min: string, max: string, currency: string)

  datatype FormState = FormState(
    title: string,
    company: string,
    location: string,
    remote: bool,
    jobType: string,
    salary: SalaryInput,
    description: string,
    requirements: seq<string>,
    skills: seq<string>)

  /** The initial form: empty texts, on-site full-time, USD, and one empty
      entry in each list. */
  function InitialForm(): (f: FormState)
    ensures f.requirements == [""] && f.skills == [""]
    ensures !f.remote && f.jobType == "full-time" && f.salary == SalaryInput("", "", "USD")
  {
    FormState("", "", "", false, "full-time", SalaryInput("", "", "USD"), "", [""], [""])
  }

  /** The text inputs and the select of the form, by their `name`. */
  datatype TextField = Title | Company | Location | JobType | Description

  /** A change event: a text input or select reports its value, the one
      checkbox (`remote`) its `checked` state. */
  datatype ChangeEvent = TextInput(field: TextField, value: string) | Checkbox(checked: bool)

  /** `handleChange`: the named field takes the event's value, or `checked`
      for the checkbox; nothing else changes. */
  function HandleChange(f: FormState, e: ChangeEvent): (g: FormState)
    ensures e.Checkbox? ==> g == f.(remote := e.checked)
    ensures e.TextInput? ==> TextValue(g, e.field) == e.value
    ensures e.TextInput? ==> forall t :: t != e.field ==> TextValue(g, t) == TextValue(f, t)
    ensures e.TextInput? ==>
      g.remote == f.remote && g.salary == f.salary && g.requirements == f.requirements && g.skills == f.skills
  {
    match e
    case Checkbox(c) => f.(remote := c)
    case TextInput(t, v) =>
      match t
      case Title => f.(title := v)
      case Company => f.(company := v)
      case Location => f.(location := v)
      case JobType => f.(jobType := v)
      case Description => f.(description := v)
  }

  function TextValue(f: FormState, t: TextField): string
  {
    match t
    case Title => f.title
    case Company => f.company
    case Location => f.location
    case JobType => f.jobType
    case Description => f.description
  }

  datatype SalaryField = Min | Max | Currency

  /** `handleSalaryChange`: one salary input changes, the rest of the salary
      and of the form do not. */
  function HandleSalaryChange(f: FormState, field: SalaryField, value: string): (g: FormState)
    ensures g.(salary := f.salary) == f
    ensures g.salary.min == (if field == Min then value else f.salary.min)
    ensures g.salary.max == (if field == Max then value else f.salary.max)
    ensures g.salary.currency == (if field == Currency then value else f.salary.currency)
  {
    match field
    case Min => f.(salary := f.salary.(min := value))
    case Max => f.(salary := f.salary.(max := value))
    case Currency => f.(salary := f.salary.(currency := value))
  }

  /** The two list fields. */
  datatype ListField = Requirements | Skills

  function List(f: FormState, l: ListField): seq<string>
  {
    match l
    case Requirements => f.requirements
    case Skills => f.skills
  }

  function WithList(f: FormState, l: ListField, items: seq<string>): (g: FormState)
    ensures List(g, l) == items
    ensures forall m :: m != l ==> List(g, m) == List(f, m)
    ensures g.(requirements := f.requirements, skills := f.skills) == f
  {
    match l
    case Requirements => f.(requirements := items)
    case Skills => f.(skills := items)
  }

  /** `handleArrayChange(l, i, v)`: entry `i` of the list becomes `v`; its
      length, its other entries, the other list and the other fields stay. */
  function HandleArrayChange(f: FormState, l: ListField, i: nat, v: string): (g: FormState)
    ensures |List(g, l)| == |List(f, l)|
    ensures i < |List(f, l)| ==> List(g, l)[i] == v
    ensures forall j :: 0 <= j < |List(f, l)| && j != i ==> List(g, l)[j] == List(f, l)[j]
    ensures forall m :: m != l ==> List(g, m) == List(f, m)
    ensures g.(requirements := f.requirements, skills := f.skills) == f
  {
    WithList(f, l, ReplaceAt(List(f, l), i, v))
  }

  /** `addArrayItem(l)`: an empty entry is appended. */
  function AddArrayItem(f: FormState, l: ListField): (g: FormState)
    ensures List(g, l) == List(f, l) + [""]
    ensures forall m :: m != l ==> List(g, m) == List(f, m)
    ensures g.(requirements := f.requirements, skills := f.skills) == f
  {
    WithList(f, l, List(f, l) + [""])
  }

  /** `removeArrayItem(l, i)`: exactly entry `i` is removed, the rest keep
      their order. */
  function RemoveArrayItem(f: FormState, l: ListField, i: nat): (g: FormState)
    ensures i < |List(f, l)| ==> |List(g, l)| == |List(f, l)| - 1
    ensures i < |List(f, l)| ==> List(g, l) == List(f, l)[..i] + List(f, l)[i + 1..]
    ensures i >= |List(f, l)| ==> g == f
    ensures forall m :: m != l ==> List(g, m) == List(f, m)
    ensures g.(requirements := f.requirements, skills := f.skills) == f
  {
    WithList(f, l, DeleteAt(List(f, l), i))
  }

  /** Whether each entry of the list shows its remove button. */
  predicate ShowsRemove(f: FormState, l: ListField)
  {
    |List(f, l)| > 1
  }

  /** Removing the entry just added gives the form back. */
  lemma AddThenRemove(f: FormState, l: ListField)
    ensures RemoveArrayItem(AddArrayItem(f, l), l, |List(f, l)|) == f
  {
    var g := AddArrayItem(f, l);
    assert List(g, l)[..|List(f, l)|] == List(f, l);
  }

  /** What a user can do to the lists on screen: edit an entry, add one, or
      press a remove button, which exists only while the list has more than
      one entry. */
  datatype ListAction = Edit(l: ListField, i: nat, v: string) | Add(l: ListField) | Remove(l: ListField, i: nat)

  function Perform(f: FormState, a: ListAction): FormState
  {
    match a
    case Edit(l, i, v) => HandleArrayChange(f, l, i, v)
    case Add(l) => AddArrayItem(f, l)
    case Remove(l, i) => if ShowsRemove(f, l) && i < |List(f, l)| then RemoveArrayItem(f, l, i) else f
  }

  function PerformAll(f: FormState, actions: seq<ListAction>): FormState
    decreases |actions|
  {
    if actions == [] then f else PerformAll(Perform(f, actions[0]), actions[1..])
  }

  /** Starting from the initial form, no sequence of on-screen actions can
      empty either list. */
  lemma {:induction false} ListsStayNonEmpty(f: FormState, actions: seq<ListAction>)
    requires f.requirements != [] && f.skills != []
    ensures PerformAll(f, actions).requirements != [] && PerformAll(f, actions).skills != []
    decreases |actions|
  {
    if actions != [] {
      var g := Perform(f, actions[0]);
      assert List(g, Requirements) != [] && List(g, Skills) != [] by {
        match actions[0]
        case Edit(l, i, v) =>
        case Add(l) =>
        case Remove(l, i) =>
          assert List(f, Requirements) != [] && List(f, Skills) != [];
      }
      ListsStayNonEmpty(g, actions[1..]);
    }
  }

  /** `items.filter(x => x.trim())`: the entries that are not blank, untrimmed,
      in their order. */
  function KeepNonBlank(items: seq<string>): (r: seq<string>)
    ensures |r| <= |items|
    ensures forall x :: x in r ==> Trim(x) != "" && x in items
    ensures forall x :: x in items && Trim(x) != "" ==> x in r
  {
    if items == [] then []
    else
      var rest := KeepNonBlank(items[1..]);
      assert items == [items[0]] + items[1..];
      if Trim(items[0]) != "" then [items[0]] + rest else rest
  }

  /** The non-blank entries keep their order. */
  lemma {:induction false} KeepNonBlankOrder(items: seq<string>)
    ensures SubsequenceOf(KeepNonBlank(items), items)
  {
    if items != [] {
      KeepNonBlankOrder(items[1..]);
      var rest := KeepNonBlank(items[1..]);
      if Trim(items[0]) == "" && rest != [] {
        assert Trim(rest[0]) != "";
      }
    }
  }

  /** The salary as submitted; a number that `parseInt` cannot read (NaN) is
      None like a missing one. */
  datatype SalaryOut = SalaryOut(min: Option<int>, max: Option<int>, currency: string)

  /** The job data `handleSubmit` posts. */
  datatype JobData = JobData(
    title: string,
    company: string,
    location: string,
    remote: bool,
    jobType: string,
    salary: SalaryOut,
    description: string,
    requirements: seq<string>,
    skills: seq<string>)

  /** `handleSubmit`'s payload, with `parseInt` given as a parameter: the lists
      lose their blank entries, a salary bound is parsed only when its input
      is non-empty, and everything else is the form as it is. */
  function SubmitData(f: FormState, parseInt: string -> Option<int>): (d: JobData)
    ensures d.requirements == KeepNonBlank(f.requirements) && d.skills == KeepNonBlank(f.skills)
    ensures d.salary.min == (if f.salary.min == "" then None else parseInt(f.salary.min))
    ensures d.salary.max == (if f.salary.max == "" then None else parseInt(f.salary.max))
    ensures d.salary.currency == f.salary.currency
    ensures d.title == f.title && d.company == f.company && d.location == f.location
    ensures d.remote == f.remote && d.jobType == f.jobType && d.description == f.description
  {
    JobData(f.title, f.company, f.location, f.remote, f.jobType,
            SalaryOut(if f.salary.min == "" then None else parseInt(f.salary.min),
                      if f.salary.max == "" then None else parseInt(f.salary.max),
                      f.salary.currency),
            f.description, KeepNonBlank(f.requirements), KeepNonBlank(f.skills))
  }

  /** Submitting the untouched form sends empty lists and no salary bounds. */
  lemma SubmitInitial(parseInt: string -> Option<int>)
    ensures SubmitData(InitialForm(), parseInt).requirements == []
    ensures SubmitData(InitialForm(), parseInt).skills == []
    ensures SubmitData(InitialForm(), parseInt).salary == SalaryOut(None, None, "USD")
  {
    assert Trim("") == "";
  }
}
