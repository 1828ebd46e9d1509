// Bodyfile rows and the timeline made of them.
module Mactime {
  import opened Common
  import opened Order

  // ---------------------------------------------------------------------
  // A row of eleven fields, of which only the name may hold the separator
  // ---------------------------------------------------------------------

  const FIELDS: nat := 11

  function Split(line: string): (fields: seq<string>)
    ensures fields != []
  {
    if line == "" then [""]
    else if line[0] == '|' then [""] + Split(line[1..])
    else
      var rest := Split(line[1..]);
      [[line[0]] + rest[0]] + rest[1..]
  }

  function Joined(fields: seq<string>): string
    requires fields != []
  {
    if |fields| == 1 then fields[0] else fields[0] + "|" + Joined(fields[1..])
  }

  datatype Columns = Columns(md5: string, name: string, tail: seq<string>)

  /** The first field, the last nine, and the name that is everything between. */
  function ParseRow(line: string): Option<Columns> {
    var fields := Split(line);
    if |fields| < FIELDS then None
    else Some(Columns(fields[0], Joined(fields[1..|fields| - 9]), fields[|fields| - 9..]))
  }

  predicate Plain(s: string) {
    '|' !in s
  }

  function RowText(c: Columns): string
    requires |c.tail| == 9
  {
    c.md5 + "|" + (c.name + "|" + Joined(c.tail))
  }

  lemma {:induction false} SplitPlain(line: string)
    ensures forall i | 0 <= i < |Split(line)| :: Plain(Split(line)[i])
  {
    if line != "" {
      SplitPlain(line[1..]);
    }
  }

  lemma {:induction false} SplitCons(s: string)
    requires s != ""
    ensures var rest := Split(s[1..]);
            Split(s) == if s[0] == '|' then [""] + rest else [[s[0]] + rest[0]] + rest[1..]
  {
  }

  lemma {:induction false} PlainIsOne(s: string)
    requires Plain(s)
    ensures Split(s) == [s]
  {
    if s != "" {
      PlainIsOne(s[1..]);
      assert s == [s[0]] + s[1..];
    }
  }

  /** A separator splits wherever it stands. */
  lemma {:induction false} SplitAt(a: string, b: string)
    ensures Split(a + "|" + b) == Split(a) + Split(b)
  {
    hide Split;
    var whole := a + "|" + b;
    if a == "" {
      SplitCons(whole);
      PlainIsOne(a);
      assert whole[1..] == b;
    } else {
      SplitAt(a[1..], b);
      assert whole[1..] == a[1..] + "|" + b;
      SplitCons(a);
      SplitCons(whole);
      var rest, end := Split(a[1..]), Split(b);
      assert (rest + end)[0] == rest[0] && (rest + end)[1..] == rest[1..] + end;
      assert [""] + (rest + end) == ([""] + rest) + end;
    }
  }

  lemma JoinedOne(s: string)
    ensures Joined([s]) == s
  {
  }

  lemma {:induction false} JoinedMore(a: seq<string>, b: seq<string>)
    requires a != [] && b != []
    ensures Joined(a + b) == Joined(a) + "|" + Joined(b)
  {
    if |a| == 1 {
      assert (a + b)[1..] == b;
    } else {
      JoinedMore(a[1..], b);
      assert (a + b)[1..] == a[1..] + b;
      var x, y, z := a[0], Joined(a[1..]), Joined(b);
      assert x + "|" + (y + "|" + z) == (x + "|" + y) + "|" + z;
    }
  }

  lemma {:induction false} JoinedPush(c: char, fields: seq<string>)
    requires fields != []
    ensures Joined([[c] + fields[0]] + fields[1..]) == [c] + Joined(fields)
  {
  }

  lemma {:induction false} SplitJoined(line: string)
    ensures Joined(Split(line)) == line
  {
    hide Split, Joined;
    if line == "" {
      PlainIsOne(line);
      JoinedOne("");
    } else {
      SplitJoined(line[1..]);
      SplitCons(line);
      var rest := Split(line[1..]);
      if line[0] == '|' {
        JoinedMore([""], rest);
        JoinedOne("");
      } else {
        JoinedPush(line[0], rest);
      }
      assert line == [line[0]] + line[1..];
    }
  }

  lemma {:induction false} SplitOfJoined(fields: seq<string>)
    requires fields != [] && forall i | 0 <= i < |fields| :: Plain(fields[i])
    ensures Split(Joined(fields)) == fields
  {
    PlainIsOne(fields[0]);
    if |fields| > 1 {
      SplitOfJoined(fields[1..]);
      SplitAt(fields[0], Joined(fields[1..]));
      assert fields == [fields[0]] + fields[1..];
    }
  }

  /** Whatever the name holds, a row written with it is read back as it was. */
  lemma RowReadsBack(c: Columns)
    requires |c.tail| == 9 && Plain(c.md5) && forall i | 0 <= i < 9 :: Plain(c.tail[i])
    ensures ParseRow(RowText(c)) == Some(c)
  {
    hide Split, Joined;
    PlainIsOne(c.md5);
    SplitOfJoined(c.tail);
    SplitAt(c.name, Joined(c.tail));
    SplitAt(c.md5, c.name + "|" + Joined(c.tail));
    SplitJoined(c.name);
    var fields := Split(RowText(c));
    assert fields == [c.md5] + (Split(c.name) + c.tail);
    assert fields[1..|fields| - 9] == Split(c.name) && fields[|fields| - 9..] == c.tail;
  }

  function Separators(line: string): nat {
    if line == "" then 0 else (if line[0] == '|' then 1 else 0) + Separators(line[1..])
  }

  lemma {:induction false} SplitCount(line: string)
    ensures |Split(line)| == Separators(line) + 1
  {
    if line != "" {
      SplitCount(line[1..]);
    }
  }

  /** A line is a row exactly if it has ten separators or more, and its columns
      written out again are the line. */
  lemma {:induction false} RowWritesBack(line: string)
    ensures ParseRow(line).Some? <==> Separators(line) >= FIELDS - 1
    ensures ParseRow(line).Some? ==>
              var c := ParseRow(line).value;
              |c.tail| == 9 && Plain(c.md5) && (forall i | 0 <= i < 9 :: Plain(c.tail[i])) && RowText(c) == line
  {
    hide Split, Joined;
    SplitCount(line);
    if ParseRow(line).Some? {
      SplitPlain(line);
      SplitJoined(line);
      var fields, c := Split(line), ParseRow(line).value;
      var name := fields[1..|fields| - 9];
      assert fields == [fields[0]] + (name + c.tail);
      JoinedMore([fields[0]], name + c.tail);
      JoinedMore(name, c.tail);
      JoinedOne(fields[0]);
    }
  }

  // ---------------------------------------------------------------------
  // The timeline
  // ---------------------------------------------------------------------

  /** A bodyfile entry. None is a time that is not an integer. */
  datatype Entry = Entry(name: string, mtime: Option<int>, atime: Option<int>, ctime: Option<int>, crtime: Option<int>)

  const FLAGS := "macb"

  /** The four times in the order of their flags. */
  function Times(e: Entry): (ts: seq<Option<int>>)
    ensures |ts| == 4
  {
    [e.mtime, e.atime, e.ctime, e.crtime]
  }

  predicate Counts(t: Option<int>) {
    t.Some? && t.value > 0
  }

  /** The rows of one entry are told apart by time; `from` is the entry the
      other columns are copied out of. */
  datatype Row = Row(from: nat, ts: int, macb: string, name: string)

  function Stamps(e: Entry): set<int> {
    set k | 0 <= k < 4 && Counts(Times(e)[k]) :: Times(e)[k].value
  }

  function Flagged(e: Entry, ts: int): (s: string)
    ensures |s| == 4 && forall k | 0 <= k < 4 :: s[k] == if Times(e)[k] == Some(ts) then FLAGS[k] else '.'
  {
    seq(4, k requires 0 <= k < 4 => if Times(e)[k] == Some(ts) then FLAGS[k] else '.')
  }

  function RowOf(entries: seq<Entry>, i: nat, ts: int): Row
    requires i < |entries|
  {
    Row(i, ts, Flagged(entries[i], ts), entries[i].name)
  }

  /** A row the timeline has to have, and no other. */
  predicate Due(entries: seq<Entry>, r: Row) {
    r.from < |entries| && r.ts in Stamps(entries[r.from]) && r == RowOf(entries, r.from, r.ts)
  }

  predicate Less(a: Row, b: Row) {
    a.ts < b.ts || (a.ts == b.ts && a.name != b.name && Leq(a.name, b.name))
  }

  /** By time, then name, then the order of the entries: no two rows tie. */
  predicate Precedes(a: Row, b: Row) {
    Less(a, b) || (a.ts == b.ts && a.name == b.name && a.from < b.from)
  }

  predicate InOrder(rows: seq<Row>) {
    forall i, j | 0 <= i < j < |rows| :: Precedes(rows[i], rows[j])
  }

  ghost predicate IsTimeline(rows: seq<Row>, entries: seq<Entry>) {
    InOrder(rows) && forall r :: r in rows <==> Due(entries, r)
  }

  lemma PrecedesOneWay(a: Row, b: Row)
    requires Precedes(a, b)
    ensures !Precedes(b, a)
  {
    if Leq(a.name, b.name) && Leq(b.name, a.name) {
      LeqAntisymmetric(a.name, b.name);
    }
  }

  lemma FirstIsSame(a: seq<Row>, b: seq<Row>)
    requires InOrder(a) && InOrder(b) && a != [] && b != [] && forall r :: r in a <==> r in b
    ensures a[0] == b[0]
  {
    hide Precedes;
    assert a[0] in b && b[0] in a;
    var i :| 0 <= i < |b| && b[i] == a[0];
    var j :| 0 <= j < |a| && a[j] == b[0];
    if i > 0 && j > 0 {
      PrecedesOneWay(a[0], b[0]);
    }
  }

  lemma RestIsSame(a: seq<Row>, b: seq<Row>)
    requires InOrder(a) && InOrder(b) && a != [] && b != [] && a[0] == b[0] && forall r :: r in a <==> r in b
    ensures InOrder(a[1..]) && InOrder(b[1..]) && forall r :: r in a[1..] <==> r in b[1..]
  {
    NotAgain(a);
    NotAgain(b);
    assert forall r :: r in a <==> r == a[0] || r in a[1..];
    assert forall r :: r in b <==> r == b[0] || r in b[1..];
  }

  lemma NotAgain(a: seq<Row>)
    requires InOrder(a) && a != []
    ensures a[0] !in a[1..]
  {
  }

  /** There is one timeline: nothing about it is left to the order in which a map is gone through. */
  lemma {:induction false} OneTimeline(a: seq<Row>, b: seq<Row>)
    requires InOrder(a) && InOrder(b) && forall r :: r in a <==> r in b
    ensures a == b
    decreases |a|
  {
    hide InOrder;
    assert (a != [] ==> a[0] in b) && (b != [] ==> b[0] in a);
    if a != [] && b != [] {
      FirstIsSame(a, b);
      RestIsSame(a, b);
      OneTimeline(a[1..], b[1..]);
      assert a == [a[0]] + a[1..] && b == [b[0]] + b[1..];
    }
  }

  /** Oldest first, and by name where the times are one. */
  ghost predicate Chronological(rows: seq<Row>) {
    forall i, j | 0 <= i < j < |rows| ::
      rows[i].ts <= rows[j].ts && (rows[i].ts == rows[j].ts ==> Ascends(rows[i].name, rows[j].name))
  }

  /** A row says of one entry which of its times are the row's: modified, accessed, changed, born. */
  predicate SaysOf(r: Row, e: Entry) {
    && r.name == e.name && |r.macb| == 4
    && r.macb[0] == (if e.mtime == Some(r.ts) then 'm' else '.')
    && r.macb[1] == (if e.atime == Some(r.ts) then 'a' else '.')
    && r.macb[2] == (if e.ctime == Some(r.ts) then 'c' else '.')
    && r.macb[3] == (if e.crtime == Some(r.ts) then 'b' else '.')
  }

  /** One of the entry's times is `t`. */
  predicate HasTime(e: Entry, t: int) {
    e.mtime == Some(t) || e.atime == Some(t) || e.ctime == Some(t) || e.crtime == Some(t)
  }

  predicate HasRow(rows: seq<Row>, i: nat, t: int) {
    exists k :: 0 <= k < |rows| && rows[k].from == i && rows[k].ts == t
  }

  /** Every positive time of every entry has one row, which says which of its times it is; and there is no other row. */
  ghost predicate EachTimeOnce(rows: seq<Row>, entries: seq<Entry>) {
    && (forall k | 0 <= k < |rows| ::
          && rows[k].from < |entries| && rows[k].ts > 0
          && HasTime(entries[rows[k].from], rows[k].ts) && SaysOf(rows[k], entries[rows[k].from]))
    && (forall i, t | 0 <= i < |entries| && t > 0 && HasTime(entries[i], t) :: HasRow(rows, i, t))
    && (forall k, l | 0 <= k < l < |rows| :: rows[k].from != rows[l].from || rows[k].ts != rows[l].ts)
  }

  lemma TimelineIs(rows: seq<Row>, entries: seq<Entry>)
    requires IsTimeline(rows, entries)
    ensures Chronological(rows) && EachTimeOnce(rows, entries)
  {
    hide Leq, Ascends;
    forall i, j | 0 <= i < j < |rows|
      ensures rows[i].ts <= rows[j].ts && (rows[i].ts == rows[j].ts ==> Ascends(rows[i].name, rows[j].name))
    {
      assert Precedes(rows[i], rows[j]);
      LeqIff(rows[i].name, rows[j].name);
      LeqIff(rows[i].name, rows[i].name);
      LeqTotal(rows[i].name, rows[i].name);
    }
    forall k | 0 <= k < |rows|
      ensures rows[k].from < |entries| && rows[k].ts > 0
      ensures HasTime(entries[rows[k].from], rows[k].ts) && SaysOf(rows[k], entries[rows[k].from])
    {
      assert rows[k] in rows && Due(entries, rows[k]);
      DueSays(entries, rows[k]);
    }
    forall i, t | 0 <= i < |entries| && t > 0 && HasTime(entries[i], t)
      ensures HasRow(rows, i, t)
    {
      TimeIsDue(entries, i, t);
      assert RowOf(entries, i, t) in rows;
      var k :| 0 <= k < |rows| && rows[k] == RowOf(entries, i, t);
    }
    forall k, l | 0 <= k < l < |rows|
      ensures rows[k].from != rows[l].from || rows[k].ts != rows[l].ts
    {
      assert Precedes(rows[k], rows[l]);
      assert Due(entries, rows[k]) && Due(entries, rows[l]) by { assert rows[k] in rows && rows[l] in rows; }
    }
  }

  lemma DueSays(entries: seq<Entry>, r: Row)
    requires Due(entries, r)
    ensures r.ts > 0 && HasTime(entries[r.from], r.ts) && SaysOf(r, entries[r.from])
  {
  }

  lemma TimeIsDue(entries: seq<Entry>, i: nat, t: int)
    requires i < |entries| && t > 0 && HasTime(entries[i], t)
    ensures Due(entries, RowOf(entries, i, t))
  {
    var ts := Times(entries[i]);
    assert ts[0] == Some(t) || ts[1] == Some(t) || ts[2] == Some(t) || ts[3] == Some(t);
    assert t in Stamps(entries[i]);
  }

  // ---------------------------------------------------------------------
  // Making it
  // ---------------------------------------------------------------------

  type ByTime = map<Option<int>, set<char>>

  /** addTime, for the first `n` of the four. */
  ghost predicate Collected(byTime: ByTime, e: Entry, n: nat)
    requires n <= 4
  {
    && (forall k | 0 <= k < n && Counts(Times(e)[k]) :: Times(e)[k] in byTime)
    && (forall t | t in byTime :: Counts(t) && Among(e, n, t) && FlagsOf(byTime[t], e, n, t))
  }

  ghost predicate Among(e: Entry, n: nat, t: Option<int>)
    requires n <= 4
  {
    exists k :: 0 <= k < n && Times(e)[k] == t
  }

  /** Of the first `n` flags those whose time this is, and none after them. */
  ghost predicate FlagsOf(flags: set<char>, e: Entry, n: nat, t: Option<int>)
    requires n <= 4
  {
    forall k | 0 <= k < 4 :: FLAGS[k] in flags <==> k < n && Times(e)[k] == t
  }

  function AddTime(byTime: ByTime, t: Option<int>, flag: char): ByTime {
    if !Counts(t) then byTime
    else byTime[t := (if t in byTime then byTime[t] else {}) + {flag}]
  }

  lemma AddFlag(flags: set<char>, e: Entry, n: nat, t: Option<int>)
    requires n < 4 && FlagsOf(flags, e, n, t)
    ensures FlagsOf(if Times(e)[n] == t then flags + {FLAGS[n]} else flags, e, n + 1, t)
  {
  }

  lemma NoFlags(e: Entry, n: nat)
    requires n < 4 && !Among(e, n, Times(e)[n])
    ensures FlagsOf({}, e, n, Times(e)[n])
  {
  }

  lemma AddCollects(byTime: ByTime, e: Entry, n: nat)
    requires n < 4 && Collected(byTime, e, n)
    ensures Collected(AddTime(byTime, Times(e)[n], FLAGS[n]), e, n + 1)
  {
    hide FlagsOf, Times;
    var now, more := Times(e)[n], AddTime(byTime, Times(e)[n], FLAGS[n]);
    forall t | t in more
      ensures Counts(t) && Among(e, n + 1, t) && FlagsOf(more[t], e, n + 1, t)
    {
      if t in byTime {
        AddFlag(byTime[t], e, n, t);
      } else {
        NoFlags(e, n);
        AddFlag({}, e, n, t);
      }
    }
  }

  /** macbString. */
  method MacbString(flags: set<char>) returns (s: string)
    ensures |s| == 4 && forall k | 0 <= k < 4 :: s[k] == if FLAGS[k] in flags then FLAGS[k] else '.'
  {
    s := "....";
    var i: nat := 0;
    while i < 4
      invariant i <= 4 && |s| == 4
      invariant forall k | 0 <= k < i :: s[k] == if FLAGS[k] in flags then FLAGS[k] else '.'
      invariant forall k | i <= k < 4 :: s[k] == '.'
      decreases 4 - i
    {
      if FLAGS[i] in flags {
        s := s[i := FLAGS[i]];
      }
      i := i + 1;
    }
  }

  /** Rows as they are gathered: entry by entry, and one a time within an entry. */
  ghost predicate Gathered(rows: seq<Row>) {
    forall i, j | 0 <= i < j < |rows| ::
      rows[i].from < rows[j].from || (rows[i].from == rows[j].from && rows[i].ts != rows[j].ts)
  }

  method Collect(e: Entry) returns (byTime: ByTime)
    ensures Collected(byTime, e, 4)
  {
    hide Collected, AddTime;
    byTime := map[];
    assert Collected(byTime, e, 0) by { NothingCollected(e); }
    AddCollects(byTime, e, 0);
    byTime := AddTime(byTime, e.mtime, 'm');
    AddCollects(byTime, e, 1);
    byTime := AddTime(byTime, e.atime, 'a');
    AddCollects(byTime, e, 2);
    byTime := AddTime(byTime, e.ctime, 'c');
    AddCollects(byTime, e, 3);
    byTime := AddTime(byTime, e.crtime, 'b');
  }

  lemma NothingCollected(e: Entry)
    ensures Collected(map[], e, 0)
  {
  }

  lemma CollectedRow(byTime: ByTime, entries: seq<Entry>, i: nat, ts: int, macb: string)
    requires i < |entries| && Collected(byTime, entries[i], 4) && Some(ts) in byTime && |macb| == 4
    requires forall k | 0 <= k < 4 :: macb[k] == if FLAGS[k] in byTime[Some(ts)] then FLAGS[k] else '.'
    ensures Row(i, ts, macb, entries[i].name) == RowOf(entries, i, ts)
  {
  }

  lemma CollectedStamps(byTime: ByTime, e: Entry)
    requires Collected(byTime, e, 4)
    ensures forall t | t in byTime :: Counts(t)
    ensures forall ts :: Some(ts) in byTime <==> ts in Stamps(e)
  {
  }

  /** The rows of one entry, in whatever order the map hands its times over. */
  method EntryRows(entries: seq<Entry>, i: nat) returns (rows: seq<Row>)
    requires i < |entries|
    ensures Gathered(rows) && forall r :: r in rows <==> Due(entries, r) && r.from == i
  {
    hide Collected, Stamps, Flagged;
    var byTime := Collect(entries[i]);
    CollectedStamps(byTime, entries[i]);
    rows := [];
    var left := byTime.Keys;
    while left != {}
      invariant left <= byTime.Keys && Gathered(rows)
      invariant forall r :: r in rows <==> Some(r.ts) in byTime.Keys - left && r == RowOf(entries, i, r.ts)
      decreases left
    {
      var t :| t in left;
      var macb := MacbString(byTime[t]);
      CollectedRow(byTime, entries, i, t.value, macb);
      rows, left := rows + [Row(i, t.value, macb, entries[i].name)], left - {t};
    }
  }

  /** One step of a stable sort: a row goes in behind every row it is not less than. */
  method Insert(sorted: seq<Row>, r: Row) returns (out: seq<Row>)
    requires InOrder(sorted)
    requires forall i | 0 <= i < |sorted| ::
               sorted[i].from < r.from || (sorted[i].from == r.from && sorted[i].ts != r.ts)
    ensures InOrder(out) && multiset(out) == multiset(sorted) + multiset{r}
  {
    hide Less, Leq;
    var p := |sorted|;
    while p > 0 && Less(r, sorted[p - 1])
      invariant 0 <= p <= |sorted|
      invariant forall k | p <= k < |sorted| :: Less(r, sorted[k])
      decreases p
    {
      p := p - 1;
    }
    if p > 0 {
      NotLess(sorted[p - 1], r);
      Before(sorted, p, r);
    }
    out := sorted[..p] + [r] + sorted[p..];
    assert sorted == sorted[..p] + sorted[p..];
  }

  lemma NotLess(a: Row, r: Row)
    requires !Less(r, a) && (a.from < r.from || (a.from == r.from && a.ts != r.ts))
    ensures Precedes(a, r)
  {
    LeqTotal(a.name, r.name);
  }

  lemma PrecedesTransitive(a: Row, b: Row, c: Row)
    requires Precedes(a, b) && Precedes(b, c)
    ensures Precedes(a, c)
  {
    if a.ts == b.ts == c.ts && a.name != b.name && b.name != c.name {
      LeqTransitive(a.name, b.name, c.name);
      if a.name == c.name {
        LeqAntisymmetric(a.name, b.name);
      }
    }
  }

  lemma Before(sorted: seq<Row>, p: nat, r: Row)
    requires 0 < p <= |sorted| && InOrder(sorted) && Precedes(sorted[p - 1], r)
    ensures forall k | 0 <= k < p :: Precedes(sorted[k], r)
  {
    hide Precedes;
    forall k | 0 <= k < p
      ensures Precedes(sorted[k], r)
    {
      if k < p - 1 {
        PrecedesTransitive(sorted[k], sorted[p - 1], r);
      }
    }
  }

  /** sort.SliceStable over rows as they were gathered. */
  method StableSort(rows: seq<Row>) returns (out: seq<Row>)
    requires Gathered(rows)
    ensures InOrder(out) && multiset(out) == multiset(rows)
  {
    hide InOrder;
    out := [];
    assert InOrder(out) by { NoneInOrder(); }
    var n: nat := 0;
    while n < |rows|
      invariant n <= |rows| && InOrder(out) && multiset(out) == multiset(rows[..n])
      decreases |rows| - n
    {
      forall i | 0 <= i < |out|
        ensures out[i].from < rows[n].from || (out[i].from == rows[n].from && out[i].ts != rows[n].ts)
      {
        assert out[i] in multiset(rows[..n]);
        var k :| 0 <= k < n && rows[k] == out[i];
      }
      out := Insert(out, rows[n]);
      assert rows[..n + 1] == rows[..n] + [rows[n]];
      n := n + 1;
    }
    assert rows[..|rows|] == rows;
  }

  lemma NoneInOrder()
    ensures InOrder([])
  {
  }

  lemma GatheredMore(rows: seq<Row>, more: seq<Row>, i: nat)
    requires Gathered(rows) && Gathered(more)
    requires (forall r | r in rows :: r.from < i) && forall r | r in more :: r.from == i
    ensures Gathered(rows + more)
  {
  }

  /** mactime: whatever order each entry's map is gone through in, the one timeline. */
  method Timeline(entries: seq<Entry>) returns (rows: seq<Row>)
    ensures IsTimeline(rows, entries) && Chronological(rows) && EachTimeOnce(rows, entries)
  {
    hide Gathered, Stamps, Flagged, RowOf, Chronological, EachTimeOnce;
    var gathered := [];
    assert Gathered(gathered) by { NoneGathered(); }
    var i: nat := 0;
    while i < |entries|
      invariant i <= |entries| && Gathered(gathered)
      invariant forall r :: r in gathered <==> Due(entries, r) && r.from < i
      decreases |entries| - i
    {
      var more := EntryRows(entries, i);
      GatheredMore(gathered, more, i);
      gathered, i := gathered + more, i + 1;
    }
    rows := StableSort(gathered);
    forall r
      ensures r in rows <==> Due(entries, r)
    {
      assert r in rows <==> r in multiset(rows);
      assert r in gathered <==> r in multiset(gathered);
    }
    TimelineIs(rows, entries);
  }

  lemma NoneGathered()
    ensures Gathered([])
  {
  }
}
