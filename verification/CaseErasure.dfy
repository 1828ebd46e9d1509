// Erasures: a case's erased record keys and erased case keys, one chain that
// ends with the erasure of every generation of the case key.
module CaseErasure {
  import opened Common
  import opened Text

  datatype Scope = EveryGeneration | OneGeneration | OtherScope(word: string)

  /** What an erasure event says it erased, in the words it says it. */
  datatype Erased = RecordKey(recordUid: string) | CaseKey(scope: Scope, generations: string)
                  | OtherErased(word: string)

  datatype Event = Event(uid: string, caseUid: string, erased: Erased)

  const RECORD_UID_SIZE := 16
  const GENERATIONS := 0x1_0000_0000

  predicate AnyHexDigit(c: char) {
    '0' <= c <= '9' || 'a' <= c <= 'f' || 'A' <= c <= 'F'
  }

  /** A record's uid in hexadecimal. */
  predicate IsRecordUid(s: string) {
    |s| == 2 * RECORD_UID_SIZE && forall i | 0 <= i < |s| :: AnyHexDigit(s[i])
  }

  // ---------------------------------------------------------------------
  // The generations an erasure of the case key names
  // ---------------------------------------------------------------------

  /** erasureGenerationsText. */
  function GenerationsText(numbers: seq<nat>): string {
    if numbers == [] then ""
    else if |numbers| == 1 then FormatNat(numbers[0])
    else FormatNat(numbers[0]) + "," + GenerationsText(numbers[1..])
  }

  /** Where the first comma is, or the length of the text. */
  function Comma(s: string): (i: nat)
    ensures i <= |s| && (i < |s| ==> s[i] == ',') && forall k | 0 <= k < i :: s[k] != ','
  {
    if s == [] || s[0] == ',' then 0 else 1 + Comma(s[1..])
  }

  /** strings.Split(text, ","). */
  function Split(s: string): (parts: seq<string>)
    ensures parts != []
    decreases |s|
  {
    var i := Comma(s);
    if i == |s| then [s] else [s[..i]] + Split(s[i + 1..])
  }

  /** One part of the text: a positive 32-bit number. */
  function Generation(part: string): Option<nat> {
    match ParseUint(part, GENERATIONS)
    case Some(n) => if n == 0 then None else Some(n)
    case None => None
  }

  function Generations(parts: seq<string>): Option<seq<nat>> {
    if parts == [] then Some([])
    else match (Generation(parts[0]), Generations(parts[1..]))
      case (Some(n), Some(ns)) => Some([n] + ns)
      case _ => None
  }

  /** erasureGenerations. */
  function ParseGenerations(text: string): Option<seq<nat>> {
    if text == "" then None else Generations(Split(text))
  }

  predicate GenerationNumbers(numbers: seq<nat>) {
    numbers != [] && forall i | 0 <= i < |numbers| :: 1 <= numbers[i] < GENERATIONS
  }

  function Joined(parts: seq<string>): string {
    if parts == [] then "" else if |parts| == 1 then parts[0] else parts[0] + "," + Joined(parts[1..])
  }

  lemma {:induction false} JoinedMore(first: string, parts: seq<string>)
    requires parts != []
    ensures Joined([first] + parts) == first + "," + Joined(parts)
  {
    assert ([first] + parts)[1..] == parts;
  }

  lemma {:induction false} JoinedSplit(s: string)
    ensures Joined(Split(s)) == s
    decreases |s|
  {
    hide Comma, Joined;
    var i := Comma(s);
    if i < |s| {
      JoinedSplit(s[i + 1..]);
      JoinedMore(s[..i], Split(s[i + 1..]));
      assert s == s[..i] + "," + s[i + 1..];
    } else {
      JoinedOne(s);
    }
  }

  lemma {:induction false} JoinedOne(s: string)
    ensures Joined([s]) == s
  {
  }

  lemma {:induction false} SplitJoined(parts: seq<string>)
    requires parts != [] && forall i | 0 <= i < |parts| :: ',' !in parts[i]
    ensures Split(Joined(parts)) == parts
    decreases |parts|
  {
    hide Comma, Joined;
    var s, first, more := Joined(parts), parts[0], parts[1..];
    assert parts == [first] + more;
    if more != [] {
      SplitJoined(more);
      JoinedMore(first, more);
      assert s[|first|] == ',' && forall k | 0 <= k < |first| :: s[k] == first[k];
      assert Comma(s) == |first|;
      assert s[..|first|] == first && s[|first| + 1..] == Joined(more);
    } else {
      JoinedOne(first);
      assert parts == [first] && s == first;
      assert ',' !in s && Comma(s) == |s|;
    }
  }

  lemma {:induction false} GenerationsIff(parts: seq<string>, ns: seq<nat>)
    ensures Generations(parts) == Some(ns) <==>
            |parts| == |ns| && forall i | 0 <= i < |ns| :: Generation(parts[i]) == Some(ns[i])
    decreases |parts|
  {
    hide Generation;
    if parts != [] && ns != [] {
      GenerationsIff(parts[1..], ns[1..]);
      assert ns == [ns[0]] + ns[1..];
      if |parts| == |ns| {
        assert forall i | 1 <= i < |ns| :: parts[1..][i - 1] == parts[i] && ns[1..][i - 1] == ns[i];
        assert forall i | 0 <= i < |ns| - 1 :: parts[1..][i] == parts[i + 1] && ns[1..][i] == ns[i + 1];
      }
    }
  }

  /** Each part is a generation number, in decimal digits. */
  predicate Spells(parts: seq<string>, ns: seq<nat>) {
    && |parts| == |ns| > 0
    && forall i | 0 <= i < |ns| ::
         parts[i] != "" && AllDigits(parts[i]) && DigitsValue(parts[i]) == ns[i] && 0 < ns[i] < 0x1_0000_0000
  }

  /** A text names generations exactly if it spells them one after another with commas between. */
  lemma {:induction false} ParseIff(text: string, ns: seq<nat>)
    ensures ParseGenerations(text) == Some(ns) <==> exists parts :: Spells(parts, ns) && text == Joined(parts)
  {
    hide Split, Generations, Joined;
    JoinedSplit(text);
    GenerationsIff(Split(text), ns);
    if ParseGenerations(text) == Some(ns) {
      assert Spells(Split(text), ns);
    }
    if parts :| Spells(parts, ns) && text == Joined(parts) {
      SplitJoined(parts);
      JoinedSome(parts);
    }
  }

  lemma {:induction false} JoinedSome(parts: seq<string>)
    requires parts != [] && parts[0] != ""
    ensures Joined(parts) != ""
  {
  }

  function Formatted(numbers: seq<nat>): (parts: seq<string>)
    ensures |parts| == |numbers| && forall i | 0 <= i < |numbers| :: parts[i] == FormatNat(numbers[i])
  {
    seq(|numbers|, i requires 0 <= i < |numbers| => FormatNat(numbers[i]))
  }

  lemma {:induction false} TextIsJoined(numbers: seq<nat>)
    ensures GenerationsText(numbers) == Joined(Formatted(numbers))
  {
    if |numbers| > 1 {
      TextIsJoined(numbers[1..]);
      assert Formatted(numbers)[1..] == Formatted(numbers[1..]);
    }
  }

  /** What an erasure of the case key writes of its generations is read back as those generations. */
  lemma {:induction false} GenerationsRoundTrip(numbers: seq<nat>)
    requires GenerationNumbers(numbers)
    ensures ParseGenerations(GenerationsText(numbers)) == Some(numbers)
  {
    hide ParseGenerations, GenerationsText, Joined, FormatNat;
    forall i | 0 <= i < |numbers|
      ensures DigitsValue(Formatted(numbers)[i]) == numbers[i]
    {
      ValueOfFormat(numbers[i]);
    }
    TextIsJoined(numbers);
    ParseIff(GenerationsText(numbers), numbers);
    assert Spells(Formatted(numbers), numbers);
  }

  // ---------------------------------------------------------------------
  // The chain
  // ---------------------------------------------------------------------

  /** erasureCheck. */
  predicate Check(caseUid: string, e: Event) {
    && e.caseUid == caseUid
    && match e.erased
       case RecordKey(recordUid) => IsRecordUid(recordUid)
       case CaseKey(scope, text) =>
         var ns := ParseGenerations(text);
         !scope.OtherScope? && ns.Some? && (scope == OneGeneration ==> |ns.value| == 1)
       case OtherErased(_) => false
  }

  predicate ErasesEveryGeneration(e: Event) {
    e.erased.CaseKey? && e.erased.scope == EveryGeneration
  }

  /** The first erasure of every generation. */
  function KeyErasure(events: seq<Event>): (k: Option<nat>)
    ensures k.Some? ==> k.value < |events| && ErasesEveryGeneration(events[k.value])
    ensures forall i | 0 <= i < (if k.Some? then k.value else |events|) :: !ErasesEveryGeneration(events[i])
    decreases |events|
  {
    if events == [] then None
    else
      var n := |events| - 1;
      var k := KeyErasure(events[..n]);
      if k.Some? then k else if ErasesEveryGeneration(events[n]) then Some(n) else None
  }

  predicate KeyErased(events: seq<Event>) {
    KeyErasure(events).Some?
  }

  /** Each event is one this program writes, and none follows the erasure of every generation. */
  predicate ErasuresGood(caseUid: string, events: seq<Event>) {
    forall i | 0 <= i < |events| :: Check(caseUid, events[i]) && !KeyErased(events[..i])
  }

  /** erasureRead: the uid of the erasure of every generation, when there is one. */
  method ErasureRead(caseUid: string, events: seq<Event>) returns (r: Outcome<Option<string>>)
    ensures r.Ok? <==> ErasuresGood(caseUid, events)
    ensures r.Ok? ==> r.value == match KeyErasure(events) case Some(k) => Some(events[k].uid) case None => None
  {
    hide Check, KeyErasure;
    var key: Option<string>, i: nat := None, 0;
    while i < |events|
      invariant i <= |events|
      invariant forall k | 0 <= k < i :: Check(caseUid, events[k]) && !KeyErased(events[..k])
      invariant key == match KeyErasure(events[..i]) case Some(k) => Some(events[k].uid) case None => None
      decreases |events| - i
    {
      if key.Some? || !Check(caseUid, events[i]) {
        return Refused;
      }
      KeyErasureMore(events[..i], events[i]);
      assert events[..i + 1] == events[..i] + [events[i]];
      if ErasesEveryGeneration(events[i]) {
        key := Some(events[i].uid);
      }
      i := i + 1;
    }
    assert events[..i] == events;
    return Ok(key);
  }

  lemma {:induction false} KeyErasureMore(events: seq<Event>, e: Event)
    ensures KeyErasure(events + [e]) ==
            if KeyErased(events) then KeyErasure(events)
            else if ErasesEveryGeneration(e) then Some(|events|) else None
  {
  }

  lemma ErasuresAppend(caseUid: string, events: seq<Event>, e: Event)
    requires ErasuresGood(caseUid, events) && Check(caseUid, e) && !KeyErased(events)
    ensures ErasuresGood(caseUid, events + [e])
  {
  }

  /** In any chain the reader accepts, nothing follows the erasure of every generation. */
  lemma NothingAfterKeyErasure(caseUid: string, events: seq<Event>, i: nat)
    requires ErasuresGood(caseUid, events) && i + 1 < |events|
    ensures !ErasesEveryGeneration(events[i])
  {
    hide Check;
    assert !KeyErased(events[..i + 1]);
    assert events[..i + 1][i] == events[i];
  }
}
