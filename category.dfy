/**
 * `Category`: a closed, string-backed enumeration. The raw string of a case is both its
 * persisted form in the record store and its `Identifiable` id.
 */
module Categories {
  import opened Options

  datatype Category = Work | Personal | Shopping

  /** `Category.allCases`, in declaration order. */
  const AllCases: seq<Category> := [Work, Personal, Shopping]

  /** The raw string of each case. */
  function RawValue(c: Category): string {
    match c
    case Work => "Работа"
    case Personal => "Личное"
    case Shopping => "Покупки"
  }

  /** `id`, which is the raw string; `addTask` persists a category through it. */
  function Id(c: Category): string {
    RawValue(c)
  }

  /** The synthesized failable initialiser `Category(rawValue:)`: the inverse of `RawValue`. */
  function FromRaw(s: string): (r: Option<Category>)
    ensures r.Some? ==> RawValue(r.value) == s
    ensures r.None? <==> forall c: Category :: RawValue(c) != s
  {
    if s == "Работа" then Some(Work)
    else if s == "Личное" then Some(Personal)
    else if s == "Покупки" then Some(Shopping)
    else None
  }

  lemma AllCasesExactlyThree()
    ensures |AllCases| == 3
    ensures forall c: Category :: c in AllCases
    ensures forall i, j :: 0 <= i < j < |AllCases| ==> AllCases[i] != AllCases[j]
  {
    forall c: Category ensures c in AllCases {
      match c
      case Work => assert AllCases[0] == Work;
      case Personal => assert AllCases[1] == Personal;
      case Shopping => assert AllCases[2] == Shopping;
    }
  }

  lemma RawValueInjective(c: Category, d: Category)
    ensures RawValue(c) == RawValue(d) <==> c == d
  {
  }

  lemma RoundTrip(c: Category)
    ensures FromRaw(RawValue(c)) == Some(c)
  {
  }

  lemma IdDecodes(c: Category)
    ensures Id(c) == RawValue(c)
    ensures FromRaw(Id(c)) == Some(c)
  {
  }
}
