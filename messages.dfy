/**
 * One poll's decision in `RunSpaceAuth` (Program.cs lines 112-136): the LINQ
 * pipeline `Where`/`Where`/`Where`/`OrderByDescending`/`FirstOrDefault` over a
 * fetched batch, the two-minute freshness check, the blank-body guard and the
 * code extraction.
 */
module Messages {
  import opened Wrappers
  import opened Text

  /** `MessageResource.DirectionEnum`. */
  datatype Direction = Inbound | OutboundApi | OutboundCall | OutboundReply

  /**
   * A fetched message record: its body, its direction and `DateCreated`
   * in .NET ticks (100 ns units, UTC).
   */
  datatype Message = Message(body: string, direction: Direction, dateCreated: int)

  /** The phrase a verification SMS must contain, compared ignoring case. */
  const Marker := "Your Apple ID Verification Code"

  /** .NET ticks per minute. */
  const TicksPerMinute: int := 600_000_000

  /** `TimeSpan.FromMinutes(2)`: messages created before `now` minus this are stale. */
  const FreshnessWindow: int := 2 * TicksPerMinute

  /** `Enumerable.Where`: the elements satisfying `p`, in their original order. */
  function Where(s: seq<Message>, p: Message -> bool): seq<Message> {
    if s == [] then []
    else if p(s[0]) then [s[0]] + Where(s[1..], p)
    else Where(s[1..], p)
  }

  /** `Where` keeps exactly the elements satisfying `p`. */
  lemma {:induction false} WhereMembers(s: seq<Message>, p: Message -> bool)
    ensures |Where(s, p)| <= |s|
    ensures forall x :: x in Where(s, p) <==> x in s && p(x)
  {
    if s != [] {
      WhereMembers(s[1..], p);
      assert s == [s[0]] + s[1..];
    }
  }

  /** First filter: `x.Direction == Inbound`. */
  predicate IsInbound(m: Message) {
    m.direction == Inbound
  }

  /** Second filter: the body contains the marker phrase, ignoring case. */
  predicate IsMarked(m: Message) {
    ContainsIgnoreCase(m.body, Marker)
  }

  /** Third filter: `regex.IsMatch(x.Body)`. */
  predicate HasCode(m: Message) {
    HasDigitRun(m.body)
  }

  /** A message passes all three filters. */
  predicate Qualifies(m: Message) {
    IsInbound(m) && IsMarked(m) && HasCode(m)
  }

  /** Every date in `s` is at least every date after it. */
  predicate SortedByDateDescending(s: seq<Message>) {
    forall i, j | 0 <= i < j < |s| :: s[i].dateCreated >= s[j].dateCreated
  }

  /**
   * Inserts `x` in front of the first element that is not newer than it, so
   * that `x` precedes later-fetched messages of the same date.
   */
  function InsertByDate(x: Message, t: seq<Message>): (r: seq<Message>)
    ensures |r| == |t| + 1
    ensures r[0] == if t == [] || x.dateCreated >= t[0].dateCreated then x else t[0]
  {
    if t == [] || x.dateCreated >= t[0].dateCreated then [x] + t
    else
      assert t == [t[0]] + t[1..];
      [t[0]] + InsertByDate(x, t[1..])
  }

  /** Inserting adds `x` and loses nothing. */
  lemma {:induction false} InsertPermutes(x: Message, t: seq<Message>)
    ensures multiset(InsertByDate(x, t)) == multiset(t) + multiset{x}
  {
    if t != [] && x.dateCreated < t[0].dateCreated {
      InsertPermutes(x, t[1..]);
      assert t == [t[0]] + t[1..];
    }
  }

  /** Inserting into a newest-first sequence keeps it newest-first. */
  lemma {:induction false} InsertKeepsSorted(x: Message, t: seq<Message>)
    requires SortedByDateDescending(t)
    ensures SortedByDateDescending(InsertByDate(x, t))
  {
    if t != [] && x.dateCreated < t[0].dateCreated {
      var rest := InsertByDate(x, t[1..]);
      InsertKeepsSorted(x, t[1..]);
      InsertPermutes(x, t[1..]);
      assert t == [t[0]] + t[1..];
      forall k | 0 <= k < |rest| ensures rest[k].dateCreated <= t[0].dateCreated {
        assert rest[k] in multiset(rest);
        if rest[k] != x {
          assert rest[k] in multiset(t[1..]);
          var j :| 0 <= j < |t[1..]| && t[1..][j] == rest[k];
          assert t[j + 1] == rest[k];
        }
      }
      assert InsertByDate(x, t) == [t[0]] + rest;
    }
  }

  /** `OrderByDescending(x => x.DateCreated)`: a stable sort, newest first. */
  function OrderByDateDescending(s: seq<Message>): (r: seq<Message>)
    ensures |r| == |s|
  {
    if s == [] then [] else InsertByDate(s[0], OrderByDateDescending(s[1..]))
  }

  /** The sort returns a newest-first permutation of its input. */
  lemma {:induction false} OrderByDateDescendingSpec(s: seq<Message>)
    ensures multiset(OrderByDateDescending(s)) == multiset(s)
    ensures SortedByDateDescending(OrderByDateDescending(s))
  {
    if s != [] {
      assert s == [s[0]] + s[1..];
      OrderByDateDescendingSpec(s[1..]);
      InsertPermutes(s[0], OrderByDateDescending(s[1..]));
      InsertKeepsSorted(s[0], OrderByDateDescending(s[1..]));
    }
  }

  /** `FirstOrDefault`: the first element, or null. */
  function FirstOrDefault(s: seq<Message>): Option<Message> {
    if s == [] then None else Some(s[0])
  }

  /** The `mostRecentMessage` pipeline of Program.cs lines 115-120. */
  function Select(batch: seq<Message>): Option<Message> {
    FirstOrDefault(OrderByDateDescending(Where(Where(Where(batch, IsInbound), IsMarked), HasCode)))
  }

  /** The three chained filters keep exactly the qualifying messages, in order. */
  lemma {:induction false} WhereChain(batch: seq<Message>)
    ensures Where(Where(Where(batch, IsInbound), IsMarked), HasCode) == Where(batch, Qualifies)
  {
    if batch != [] {
      WhereChain(batch[1..]);
    }
  }

  /** How the pipeline's result changes when one message is put in front of the batch. */
  lemma SelectCons(a: Message, r: seq<Message>)
    ensures Select([a] + r) ==
      if Qualifies(a) && (Select(r).None? || a.dateCreated >= Select(r).value.dateCreated)
      then Some(a) else Select(r)
  {
    WhereChain([a] + r);
    WhereChain(r);
    assert ([a] + r)[1..] == r;
  }

  /**
   * Index `i` of `batch` is the pipeline's pick: it qualifies, no qualifying
   * message is newer, and every qualifying message fetched before it is older.
   */
  predicate ChosenAt(batch: seq<Message>, i: nat) {
    && i < |batch|
    && Qualifies(batch[i])
    && (forall j | 0 <= j < |batch| && Qualifies(batch[j]) :: batch[j].dateCreated <= batch[i].dateCreated)
    && (forall j | 0 <= j < i && Qualifies(batch[j]) :: batch[j].dateCreated < batch[i].dateCreated)
  }

  /**
   * The pipeline returns null exactly when no message qualifies, and otherwise
   * the newest qualifying message, the earliest fetched one on a tie.
   */
  lemma {:induction false} SelectSpec(batch: seq<Message>)
    ensures Select(batch).None? <==> forall j | 0 <= j < |batch| :: !Qualifies(batch[j])
    ensures Select(batch).Some? ==> exists i: nat :: ChosenAt(batch, i) && batch[i] == Select(batch).value
  {
    if batch != [] {
      var a, r := batch[0], batch[1..];
      assert batch == [a] + r;
      SelectSpec(r);
      SelectCons(a, r);
      if Qualifies(a) && Select(r).None? {
        ChosenHeadAlone(a, r);
      } else if Qualifies(a) && a.dateCreated >= Select(r).value.dateCreated {
        var i: nat :| ChosenAt(r, i) && r[i] == Select(r).value;
        ChosenHeadOver(a, r, i);
      } else if Select(r).Some? {
        var i: nat :| ChosenAt(r, i) && r[i] == Select(r).value;
        ChosenTail(a, r, i);
      }
    }
  }

  /** A qualifying message in front of a batch with no qualifying message is the pick. */
  lemma ChosenHeadAlone(a: Message, r: seq<Message>)
    requires Qualifies(a)
    requires forall j | 0 <= j < |r| :: !Qualifies(r[j])
    ensures ChosenAt([a] + r, 0)
  {
    var b := [a] + r;
    forall j | 0 < j < |b| ensures b[j] == r[j - 1] {
    }
  }

  /** A qualifying message at least as new as the tail's pick is the pick of the whole batch. */
  lemma ChosenHeadOver(a: Message, r: seq<Message>, i: nat)
    requires Qualifies(a)
    requires ChosenAt(r, i) && a.dateCreated >= r[i].dateCreated
    ensures ChosenAt([a] + r, 0)
  {
    var b := [a] + r;
    forall j | 0 < j < |b| ensures b[j] == r[j - 1] {
    }
  }

  /** When the head does not win, the tail's pick keeps winning, one index further on. */
  lemma ChosenTail(a: Message, r: seq<Message>, i: nat)
    requires ChosenAt(r, i)
    requires !Qualifies(a) || a.dateCreated < r[i].dateCreated
    ensures ChosenAt([a] + r, i + 1)
  {
    var b := [a] + r;
    assert b[i + 1] == r[i];
    forall j | 0 < j < |b| ensures b[j] == r[j - 1] {
    }
    assert forall j | 0 <= j < |b| && Qualifies(b[j]) :: b[j].dateCreated <= b[i + 1].dateCreated;
    assert forall j | 0 <= j < i + 1 && Qualifies(b[j]) :: b[j].dateCreated < b[i + 1].dateCreated;
  }

  /** At most one index satisfies `ChosenAt`, so `SelectSpec` pins the result down. */
  lemma ChosenAtUnique(batch: seq<Message>, i: nat, k: nat)
    requires ChosenAt(batch, i) && ChosenAt(batch, k)
    ensures i == k
  {
  }

  /** A message created before `now` minus two minutes. */
  predicate IsStale(m: Message, now: int) {
    m.dateCreated < now - FreshnessWindow
  }

  /**
   * What one poll writes (Program.cs lines 115-136): nothing when there is no
   * pick, when the pick is stale or when its body is blank, and otherwise the
   * regex's code from the pick's body.
   */
  function PollCode(batch: seq<Message>, now: int): Option<string> {
    match Select(batch)
    case None => None
    case Some(m) =>
      if IsStale(m, now) then None
      else if IsNullOrWhiteSpace(Some(m.body)) then None
      else Some(CodeMatch(m.body))
  }

  /** A marked body contains a letter, so the blank-body guard at line 132 never fires. */
  lemma MarkedBodyNotBlank(m: Message)
    requires IsMarked(m)
    ensures !IsNullOrWhiteSpace(Some(m.body))
  {
    ContainsIgnoreCaseSpec(m.body, Marker);
    var k: nat :| MatchesAtIgnoreCase(m.body, Marker, k);
    assert ToUpperAscii(m.body[k + 0]) == ToUpperAscii(Marker[0]);
  }

  /**
   * A poll writes a line exactly when the pipeline picks a message that is not
   * stale, and the line is then the leftmost six-digit run of its body.
   */
  lemma {:induction false} PollCodeSpec(batch: seq<Message>, now: int)
    ensures PollCode(batch, now).Some? <==> exists i: nat :: ChosenAt(batch, i) && !IsStale(batch[i], now)
    ensures PollCode(batch, now).Some? ==> exists i: nat ::
      && ChosenAt(batch, i)
      && !IsStale(batch[i], now)
      && PollCode(batch, now).value == CodeMatch(batch[i].body)
  {
    SelectSpec(batch);
    if Select(batch).Some? {
      var i: nat :| ChosenAt(batch, i) && batch[i] == Select(batch).value;
      MarkedBodyNotBlank(batch[i]);
      forall k: nat | ChosenAt(batch, k) ensures k == i {
        ChosenAtUnique(batch, i, k);
      }
    }
  }

  /** A line a poll writes is six ASCII digits. */
  lemma PollCodeDigits(batch: seq<Message>, now: int)
    ensures PollCode(batch, now).Some? ==>
      var code := PollCode(batch, now).value;
      |code| == CodeLength && forall j | 0 <= j < |code| :: IsAsciiDigit(code[j])
  {
    SelectSpec(batch);
    if Select(batch).Some? {
      var i: nat :| ChosenAt(batch, i) && batch[i] == Select(batch).value;
      assert HasDigitRun(batch[i].body);
      CodeMatchSpec(batch[i].body);
    }
  }

  /** The messages not older than two minutes before `now`. */
  function DropStale(batch: seq<Message>, now: int): seq<Message> {
    Where(batch, (m: Message) => !IsStale(m, now))
  }

  /**
   * Reference design: discard stale messages first, then rank and extract
   * the code.
   */
  function PollCodeFreshFirst(batch: seq<Message>, now: int): Option<string> {
    match Select(DropStale(batch, now))
    case None => None
    case Some(m) => Some(CodeMatch(m.body))
  }

  /**
   * Ranking first and then rejecting a stale pick selects the same message as
   * discarding stale messages before ranking: the pick is the newest, so if
   * it is stale every qualifying message is.
   */
  lemma {:induction false} StaleCheckAfterRanking(batch: seq<Message>, now: int)
    ensures Select(DropStale(batch, now)) ==
      match Select(batch)
      case Some(m) => if IsStale(m, now) then None else Some(m)
      case None => None
  {
    if batch != [] {
      var a, r := batch[0], batch[1..];
      assert batch == [a] + r;
      StaleCheckAfterRanking(r, now);
      SelectCons(a, r);
      if IsStale(a, now) {
        assert DropStale(batch, now) == DropStale(r, now);
      } else {
        assert DropStale(batch, now) == [a] + DropStale(r, now);
        SelectCons(a, DropStale(r, now));
      }
    }
  }

  /** Both orders of the freshness check write the same line. */
  lemma FreshnessOrderIrrelevant(batch: seq<Message>, now: int)
    ensures PollCode(batch, now) == PollCodeFreshFirst(batch, now)
  {
    StaleCheckAfterRanking(batch, now);
    SelectSpec(batch);
    if Select(batch).Some? {
      var i: nat :| ChosenAt(batch, i) && batch[i] == Select(batch).value;
      MarkedBodyNotBlank(batch[i]);
    }
  }
}
