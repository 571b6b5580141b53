/** The job card of Client/src/components/jobs/JobCard.jsx: the salary line,
    the skill badges with their overflow count, and the job type label.
    `toLocaleString` is a parameter. */
module JobCard {
  import opened Common
  import opened Text
  import opened JobModel

  /** A salary bound counts only when it is present and not 0 (JavaScript
      truthiness of a number). */
  predicate Given(b: Option<int>)
  {
    b.Some? && b.value != 0
  }

  /** `formatSalary(salary)`, with `fmt` standing for `toLocaleString`. */
  function FormatSalary(salary: Salary, fmt: int -> string): (r: string)
    ensures !Given(salary.min) && !Given(salary.max) ==> r == "Salary not specified"
    ensures Given(salary.min) && Given(salary.max) ==> r == "$" + fmt(salary.min.value) + " - $" + fmt(salary.max.value)
    ensures Given(salary.min) && !Given(salary.max) ==> r == "From $" + fmt(salary.min.value)
    ensures !Given(salary.min) && Given(salary.max) ==> r == "Up to $" + fmt(salary.max.value)
  {
    if !Given(salary.min) && !Given(salary.max) then "Salary not specified"
    else if Given(salary.min) && Given(salary.max) then "$" + fmt(salary.min.value) + " - $" + fmt(salary.max.value)
    else if Given(salary.min) then "From $" + fmt(salary.min.value)
    else "Up to $" + fmt(salary.max.value)
  }

  /** Whatever the number format, the line starts with `$` exactly when both
      bounds are set, with `From` exactly when only the minimum is, and with
      `Up to` exactly when only the maximum is. */
  lemma FormatSalaryShape(salary: Salary, fmt: int -> string)
    ensures StartsWith(FormatSalary(salary, fmt), "$") <==> Given(salary.min) && Given(salary.max)
    ensures StartsWith(FormatSalary(salary, fmt), "From") <==> Given(salary.min) && !Given(salary.max)
    ensures StartsWith(FormatSalary(salary, fmt), "Up to") <==> !Given(salary.min) && Given(salary.max)
  {
    var r := FormatSalary(salary, fmt);
    if Given(salary.min) && Given(salary.max) {
      assert r[..1] == "$";
    } else if Given(salary.min) {
      assert r[..4] == "From";
    } else if Given(salary.max) {
      assert r[..5] == "Up to";
    }
    StartsWithHead(r, "$");
    StartsWithHead(r, "From");
    StartsWithHead(r, "Up to");
  }

  /** A prefix fixes the first character. */
  lemma StartsWithHead(s: string, p: string)
    requires p != []
    ensures StartsWith(s, p) ==> s[0] == p[0]
  {
    if StartsWith(s, p) {
      assert s[..|p|][0] == s[0];
    }
  }

  /** A job stored without a salary shows 'Salary not specified'. */
  lemma NoSalaryNotSpecified(currency: Option<string>, fmt: int -> string)
    ensures FormatSalary(StoredSalary(None, None, currency), fmt) == "Salary not specified"
  {
  }

  const ShownSkills: nat := 4

  /** `skills.slice(0, 4)`: the badges shown. */
  function VisibleSkills(skills: seq<string>): (r: seq<string>)
    ensures |r| <= |skills| && r == skills[..|r|]
    ensures |r| == if |skills| < ShownSkills then |skills| else ShownSkills
  {
    if |skills| <= ShownSkills then skills else skills[..ShownSkills]
  }

  /** The `+N more` badge: present exactly when there are more than four
      skills. */
  function MoreCount(skills: seq<string>): (n: Option<nat>)
    ensures n.Some? <==> |skills| > ShownSkills
  {
    if |skills| > ShownSkills then Some(|skills| - ShownSkills) else None
  }

  /** The badges account for every skill exactly once: the shown ones plus
      the overflow count are all of them, and the shown ones are the first. */
  lemma SkillsAccounted(skills: seq<string>)
    ensures |VisibleSkills(skills)| + (if MoreCount(skills).Some? then MoreCount(skills).value else 0) == |skills|
    ensures forall k :: 0 <= k < |VisibleSkills(skills)| ==> VisibleSkills(skills)[k] == skills[k]
  {
  }

  /** `job.type.replace('-', ' ')`. */
  function TypeLabel(t: JobType): (r: string)
    ensures |r| == |JobTypeName(t)|
  {
    ReplaceFirst(JobTypeName(t), '-', ' ')
  }

  /** The labels of the four types: the hyphen of the two-word types
      becomes a space, the others are shown as they are. */
  lemma TypeLabelFullTime()
    ensures TypeLabel(FullTime) == "full time"
  {
    assert JobTypeName(FullTime) == "full" + "-" + "time";
    LabelOfHyphenated("full", "time");
    assert "full" + " " + "time" == "full time";
  }

  lemma TypeLabelPartTime()
    ensures TypeLabel(PartTime) == "part time"
  {
    assert JobTypeName(PartTime) == "part" + "-" + "time";
    LabelOfHyphenated("part", "time");
    assert "part" + " " + "time" == "part time";
  }

  lemma TypeLabelOneWord()
    ensures TypeLabel(Contract) == "contract" && TypeLabel(Internship) == "internship"
  {
    TypeLabelContract();
    TypeLabelInternship();
  }

  lemma TypeLabelContract()
    ensures TypeLabel(Contract) == "contract"
  {
    NoHyphen(JobTypeName(Contract));
  }

  lemma TypeLabelInternship()
    ensures TypeLabel(Internship) == "internship"
  {
    NoHyphen(JobTypeName(Internship));
  }

  /** A hyphen after a four-letter word becomes a space. */
  lemma LabelOfHyphenated(a: string, b: string)
    requires |a| == 4 && '-' !in a
    ensures ReplaceFirst(a + "-" + b, '-', ' ') == a + " " + b
  {
    var s := a + "-" + b;
    forall k | 0 <= k < 4 ensures s[k] != '-' {
      assert s[k] == a[k];
    }
    IndexOfAt(s, '-', 4);
    ReplaceFirstSpec(s, '-', ' ');
    assert s[..4] == a && s[5..] == b;
  }

  lemma NoHyphen(s: string)
    requires '-' !in s
    ensures ReplaceFirst(s, '-', ' ') == s
  {
    ReplaceFirstSpec(s, '-', ' ');
  }
}
