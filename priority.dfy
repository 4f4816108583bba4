/**
 * `Priority`: a closed, string-backed enumeration of three cases. There is no `none` case;
 * the raw string of a case is its persisted form and its `Identifiable` id.
 */
module Priorities {
  import opened Options

  datatype Priority = Low | Medium | High

  /** `Priority.allCases`, in declaration order. */
  const AllCases: seq<Priority> := [Low, Medium, High]

  /** The raw string of each case. */
  function RawValue(p: Priority): string {
    match p
    case Low => "Низкий"
    case Medium => "Средний"
    case High => "Высокий"
  }

  /** `id`, which is the raw string. */
  function Id(p: Priority): string {
    RawValue(p)
  }

  /** The synthesized failable initialiser `Priority(rawValue:)`: the inverse of `RawValue`. */
  function FromRaw(s: string): (r: Option<Priority>)
    ensures r.Some? ==> RawValue(r.value) == s
    ensures r.None? <==> forall p: Priority :: RawValue(p) != s
  {
    if s == "Низкий" then Some(Low)
    else if s == "Средний" then Some(Medium)
    else if s == "Высокий" then Some(High)
    else None
  }

  lemma AllCasesExactlyThree()
    ensures |AllCases| == 3
    ensures forall p: Priority :: p in AllCases
    ensures forall i, j :: 0 <= i < j < |AllCases| ==> AllCases[i] != AllCases[j]
  {
    forall p: Priority ensures p in AllCases {
      match p
      case Low => assert AllCases[0] == Low;
      case Medium => assert AllCases[1] == Medium;
      case High => assert AllCases[2] == High;
    }
  }

  lemma RawValueInjective(p: Priority, q: Priority)
    ensures RawValue(p) == RawValue(q) <==> p == q
  {
  }

  lemma RoundTrip(p: Priority)
    ensures FromRaw(RawValue(p)) == Some(p)
  {
  }

  lemma IdIsRawValue(p: Priority)
    ensures Id(p) == RawValue(p)
    ensures FromRaw(Id(p)) == Some(p)
  {
  }
}
