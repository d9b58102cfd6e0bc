/** The three task priorities, each with the value stored in the database,
    a display name and a display colour (an ARGB `Long`). */
module TaskEnums {

  import opened Wrappers

  datatype Priority = Low | Medium | High {

    /** The integer stored in the `priority` column. */
    function Value(): int {
      match this
      case Low => 0
      case Medium => 1
      case High => 2
    }

    function DisplayName(): string {
      match this
      case Low => "Low"
      case Medium => "Medium"
      case High => "High"
    }

    function Color(): int {
      match this
      case Low => 0xFF4CAF50
      case Medium => 0xFFFF9800
      case High => 0xFFF44336
    }
  }

  /** The declaration order of the variants, which is the order
      `entries.find` searches them in. */
  const ENTRIES: seq<Priority> := [Low, Medium, High]

  /** Finds the first entry of `entries` whose value is `v`. */
  function Find(entries: seq<Priority>, v: int): (r: Option<Priority>)
    ensures r.Some? ==> r.value in entries && r.value.Value() == v
    ensures r.None? ==> forall p :: p in entries ==> p.Value() != v
  {
    if |entries| == 0 then None
    else if entries[0].Value() == v then Some(entries[0])
    else Find(entries[1..], v)
  }

  /** Decodes a stored priority; a value that names no variant decodes to
      `Medium` rather than failing. */
  function FromValue(v: int): (p: Priority)
    ensures p.Value() == v || (p == Medium && v !in {0, 1, 2})
  {
    Find(ENTRIES, v).GetOr(Medium)
  }

  /** The three stored values decode to their variants. */
  lemma FromValueKnown()
    ensures FromValue(0) == Low
    ensures FromValue(1) == Medium
    ensures FromValue(2) == High
  {
  }

  /** Decoding is total: every value outside 0..2 decodes to `Medium`, and
      every value inside it decodes to the variant carrying it. */
  lemma FromValueTotal(v: int)
    ensures v !in {0, 1, 2} <==> (FromValue(v) == Medium && v != 1)
    ensures v in {0, 1, 2} ==> FromValue(v).Value() == v
  {
  }

  /** Encoding then decoding a priority gives it back. */
  lemma FromValueRoundTrip(p: Priority)
    ensures FromValue(p.Value()) == p
  {
  }

  /** Normalising a stored value through `FromValue` lands in 0..2 and is
      idempotent. */
  lemma NormaliseIdempotent(v: int)
    ensures 0 <= FromValue(v).Value() <= 2
    ensures FromValue(FromValue(v).Value()) == FromValue(v)
  {
    FromValueRoundTrip(FromValue(v));
  }

  /** The stored values are distinct and ordered like the priorities, and
      the display names are the capitalised variant names. */
  lemma PriorityTable(p: Priority, q: Priority)
    ensures p.Value() == q.Value() <==> p == q
    ensures Low.Value() < Medium.Value() < High.Value()
    ensures Low.DisplayName() == "Low" && Medium.DisplayName() == "Medium" && High.DisplayName() == "High"
  {
  }
}
