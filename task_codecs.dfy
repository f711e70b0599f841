/**
 * The Category and Priority enums of the Rust back ends and the string
 * forms they are stored under.  Two trees store the title-case names
 * ("Study", "Low"); one stores lower-case names ("study", "low"); a fourth
 * only encodes, title case.
 */
module TaskKinds {
  datatype Category = Study | Work | Personal
  datatype Priority = Low | Medium | High

  /** Rust's `Result<T, ()>`. */
  datatype Result<+T> = Ok(value: T) | Err
}

/**
 * The title-case codec of src-tauri/src/model/task.rs, repeated word for word
 * in src/model/task.rs: `to_string` gives the variant's name, `from_str`
 * accepts exactly those three names, case-sensitively, and fails with `()`
 * on anything else.
 */
module TitleCaseCodec {
  import opened TaskKinds

  const CategoryNames: set<string> := {"Study", "Work", "Personal"}
  const PriorityNames: set<string> := {"Low", "Medium", "High"}

  function CategoryToString(c: Category): (s: string)
    ensures s in CategoryNames
  {
    match c
    case Study => "Study"
    case Work => "Work"
    case Personal => "Personal"
  }

  function CategoryFromStr(s: string): (r: Result<Category>)
    ensures r.Ok? <==> s in CategoryNames
    ensures r.Ok? ==> CategoryToString(r.value) == s
  {
    match s
    case "Study" => Ok(Study)
    case "Work" => Ok(Work)
    case "Personal" => Ok(Personal)
    case _ => Err
  }

  function PriorityToString(p: Priority): (s: string)
    ensures s in PriorityNames
  {
    match p
    case Low => "Low"
    case Medium => "Medium"
    case High => "High"
  }

  function PriorityFromStr(s: string): (r: Result<Priority>)
    ensures r.Ok? <==> s in PriorityNames
    ensures r.Ok? ==> PriorityToString(r.value) == s
  {
    match s
    case "Low" => Ok(Low)
    case "Medium" => Ok(Medium)
    case "High" => Ok(High)
    case _ => Err
  }

  /** Decoding an encoded category gives it back. */
  lemma CategoryRoundTrip(c: Category)
    ensures CategoryFromStr(CategoryToString(c)) == Ok(c)
  {
  }

  /** Decoding an encoded priority gives it back. */
  lemma PriorityRoundTrip(p: Priority)
    ensures PriorityFromStr(PriorityToString(p)) == Ok(p)
  {
  }

  /** Decoding succeeds on exactly the encodings: `from_str` and `to_string` are inverse bijections. */
  lemma CategoryFromStrIsInverse(s: string, c: Category)
    ensures CategoryFromStr(s) == Ok(c) <==> CategoryToString(c) == s
  {
  }

  lemma PriorityFromStrIsInverse(s: string, p: Priority)
    ensures PriorityFromStr(s) == Ok(p) <==> PriorityToString(p) == s
  {
  }

  /** Different variants have different names. */
  lemma NamesInjective(c1: Category, c2: Category, p1: Priority, p2: Priority)
    ensures CategoryToString(c1) == CategoryToString(c2) ==> c1 == c2
    ensures PriorityToString(p1) == PriorityToString(p2) ==> p1 == p2
  {
    CategoryRoundTrip(c1);
    CategoryRoundTrip(c2);
    PriorityRoundTrip(p1);
    PriorityRoundTrip(p2);
  }

  /** Matching is case-sensitive: the lower-case names of the other tree are refused. */
  lemma LowerCaseRefused()
    ensures CategoryFromStr("study").Err? && CategoryFromStr("work").Err? && CategoryFromStr("personal").Err?
    ensures PriorityFromStr("low").Err? && PriorityFromStr("medium").Err? && PriorityFromStr("high").Err?
  {
  }

  /**
   * The repository's row decoding, `parse().unwrap_or(..)`: a stored name
   * decodes to its variant, anything else to Personal and Low.
   */
  function CategoryOrPersonal(s: string): (c: Category)
    ensures s in CategoryNames ==> CategoryToString(c) == s
    ensures s !in CategoryNames ==> c == Personal
  {
    match CategoryFromStr(s)
    case Ok(c) => c
    case Err => Personal
  }

  function PriorityOrLow(s: string): (p: Priority)
    ensures s in PriorityNames ==> PriorityToString(p) == s
    ensures s !in PriorityNames ==> p == Low
  {
    match PriorityFromStr(s)
    case Ok(p) => p
    case Err => Low
  }
}

/**
 * The lower-case codec of src/models/task.rs: `as_str` gives the lower-case
 * name and `from_str` accepts exactly those, returning `None` otherwise.
 * The table's CHECK constraints (src/migrations/v0001_create_task.rs) allow
 * exactly these strings.
 */
module LowerCaseCodec {
  import opened TaskKinds
  import opened Optional

  /** The values the `tasks` table's CHECK constraints admit. */
  const CheckedCategories: set<string> := {"study", "work", "personal"}
  const CheckedPriorities: set<string> := {"low", "medium", "high"}

  function CategoryAsStr(c: Category): (s: string)
    ensures s in CheckedCategories
  {
    match c
    case Study => "study"
    case Work => "work"
    case Personal => "personal"
  }

  function CategoryFromStr(s: string): (r: Option<Category>)
    ensures r.Some? <==> s in CheckedCategories
    ensures r.Some? ==> CategoryAsStr(r.value) == s
  {
    match s
    case "study" => Some(Study)
    case "work" => Some(Work)
    case "personal" => Some(Personal)
    case _ => None
  }

  function PriorityAsStr(p: Priority): (s: string)
    ensures s in CheckedPriorities
  {
    match p
    case Low => "low"
    case Medium => "medium"
    case High => "high"
  }

  function PriorityFromStr(s: string): (r: Option<Priority>)
    ensures r.Some? <==> s in CheckedPriorities
    ensures r.Some? ==> PriorityAsStr(r.value) == s
  {
    match s
    case "low" => Some(Low)
    case "medium" => Some(Medium)
    case "high" => Some(High)
    case _ => None
  }

  lemma CategoryRoundTrip(c: Category)
    ensures CategoryFromStr(CategoryAsStr(c)) == Some(c)
  {
  }

  lemma PriorityRoundTrip(p: Priority)
    ensures PriorityFromStr(PriorityAsStr(p)) == Some(p)
  {
  }

  /** Matching is lower-case only: the title-case names of the other trees are refused. */
  lemma TitleCaseRefused()
    ensures CategoryFromStr("Study").None? && CategoryFromStr("Work").None? && CategoryFromStr("Personal").None?
    ensures PriorityFromStr("Low").None? && PriorityFromStr("Medium").None? && PriorityFromStr("High").None?
  {
  }

  /** `as_str` produces every admitted value and nothing else, one variant per value. */
  lemma AsStrIsTheCheckedSet()
    ensures (set c: Category | true :: CategoryAsStr(c)) == CheckedCategories
    ensures (set p: Priority | true :: PriorityAsStr(p)) == CheckedPriorities
    ensures forall c1: Category, c2: Category :: CategoryAsStr(c1) == CategoryAsStr(c2) ==> c1 == c2
    ensures forall p1: Priority, p2: Priority :: PriorityAsStr(p1) == PriorityAsStr(p2) ==> p1 == p2
  {
    assert CategoryAsStr(Study) == "study" && CategoryAsStr(Work) == "work" && CategoryAsStr(Personal) == "personal";
    assert PriorityAsStr(Low) == "low" && PriorityAsStr(Medium) == "medium" && PriorityAsStr(High) == "high";
    forall c1: Category, c2: Category | CategoryAsStr(c1) == CategoryAsStr(c2) ensures c1 == c2 {
      CategoryRoundTrip(c1);
      CategoryRoundTrip(c2);
    }
    forall p1: Priority, p2: Priority | PriorityAsStr(p1) == PriorityAsStr(p2) ensures p1 == p2 {
      PriorityRoundTrip(p1);
      PriorityRoundTrip(p2);
    }
  }
}

/**
 * src/model.rs keeps a task's category and priority as plain strings and
 * only encodes the enums, with the same title-case table as `TitleCaseCodec`;
 * its `tasks` table (src/db.rs) admits exactly those names.
 */
module FlatModel {
  import opened TaskKinds
  import opened TitleCaseCodec

  /** The values the `tasks` table's CHECK constraints admit. */
  const CheckedCategories: set<string> := {"Study", "Work", "Personal"}
  const CheckedPriorities: set<string> := {"Low", "Medium", "High"}

  /** `Category::to_string` of src/model.rs, variant by variant; no two variants share a name. */
  lemma CategoryEncodings()
    ensures CategoryToString(Study) == "Study" && CategoryToString(Work) == "Work"
    ensures CategoryToString(Personal) == "Personal"
    ensures forall c1: Category, c2: Category :: CategoryToString(c1) == CategoryToString(c2) ==> c1 == c2
  {
    forall c1: Category, c2: Category | CategoryToString(c1) == CategoryToString(c2) ensures c1 == c2 {
      NamesInjective(c1, c2, Low, Low);
    }
  }

  /** `Priority::to_string` of src/model.rs, variant by variant; no two variants share a name. */
  lemma PriorityEncodings()
    ensures PriorityToString(Low) == "Low" && PriorityToString(Medium) == "Medium"
    ensures PriorityToString(High) == "High"
    ensures forall p1: Priority, p2: Priority :: PriorityToString(p1) == PriorityToString(p2) ==> p1 == p2
  {
    forall p1: Priority, p2: Priority | PriorityToString(p1) == PriorityToString(p2) ensures p1 == p2 {
      NamesInjective(Study, Study, p1, p2);
    }
  }

  /** Every encoding is admitted, every admitted value is an encoding, and no two variants share one. */
  lemma EncodingsAreTheCheckedSet()
    ensures (set c: Category | true :: CategoryToString(c)) == CheckedCategories
    ensures (set p: Priority | true :: PriorityToString(p)) == CheckedPriorities
    ensures forall c1: Category, c2: Category :: CategoryToString(c1) == CategoryToString(c2) ==> c1 == c2
    ensures forall p1: Priority, p2: Priority :: PriorityToString(p1) == PriorityToString(p2) ==> p1 == p2
  {
    assert CategoryToString(Study) == "Study" && CategoryToString(Work) == "Work" && CategoryToString(Personal) == "Personal";
    assert PriorityToString(Low) == "Low" && PriorityToString(Medium) == "Medium" && PriorityToString(High) == "High";
    forall c1: Category, c2: Category | CategoryToString(c1) == CategoryToString(c2) ensures c1 == c2 {
      NamesInjective(c1, c2, Low, Low);
    }
    forall p1: Priority, p2: Priority | PriorityToString(p1) == PriorityToString(p2) ensures p1 == p2 {
      NamesInjective(Study, Study, p1, p2);
    }
  }
}
