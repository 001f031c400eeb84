/** Choosing the next free generic task id (convoy/batch.py:4177-4240). */
module NextTaskId {
  import opened Common
  import opened TaskIds

  // ---- the first free number ---------------------------------------------

  /** The id of each number. */
  type Ids = int -> string

  /** The number that the probe loop finds in an id, if any. */
  type Reader = string -> Option<int>

  ghost predicate Injective(ids: Ids) {
    forall m, n | ids(m) == ids(n) :: m == n
  }

  predicate Taken(ids: Ids, taken: set<string>, n: int) {
    ids(n) in taken
  }

  ghost predicate IdFrom(ids: Ids, id: string, n: int) {
    exists k: int :: k >= n && ids(k) == id
  }

  /** The pending ids that the probe loop can still run into. */
  ghost function Ahead(ids: Ids, taken: set<string>, n: int): set<string> {
    set id | id in taken && IdFrom(ids, id, n)
  }

  lemma AheadShrinks(ids: Ids, taken: set<string>, n: int)
    requires Injective(ids) && Taken(ids, taken, n)
    ensures Ahead(ids, taken, n + 1) < Ahead(ids, taken, n)
  {
    assert IdFrom(ids, ids(n), n);
    assert ids(n) in Ahead(ids, taken, n) && ids(n) !in Ahead(ids, taken, n + 1);
    forall x | x in Ahead(ids, taken, n + 1) ensures x in Ahead(ids, taken, n) {
      var k: int :| k >= n + 1 && ids(k) == x;
      assert IdFrom(ids, x, n);
    }
  }

  /** The least free number from n on: the plain linear scan. */
  function Scan(ids: Ids, taken: set<string>, n: int): (m: int)
    requires Injective(ids)
    ensures m >= n && !Taken(ids, taken, m)
    decreases Ahead(ids, taken, n)
  {
    if Taken(ids, taken, n) then
      AheadShrinks(ids, taken, n);
      Scan(ids, taken, n + 1)
    else n
  }

  lemma {:induction false} ScanPassesTaken(ids: Ids, taken: set<string>, n: int, k: int)
    requires Injective(ids) && n <= k < Scan(ids, taken, n)
    ensures Taken(ids, taken, k)
    decreases k - n
  {
    if n < k {
      ScanPassesTaken(ids, taken, n + 1, k);
    }
  }

  /** The number chosen from `start` on, when the last task id reads as `hint`. */
  function Chosen(ids: Ids, taken: set<string>, start: int, hint: Option<int>): (m: int)
    requires Injective(ids)
    ensures !Taken(ids, taken, m)
  {
    if !Taken(ids, taken, start) then start
    else
      match hint
      case None => Scan(ids, taken, start + 1)
      case Some(h) => Scan(ids, taken, h + 1)
  }

  /** The scan stops at the first free number. */
  lemma ScanUnique(ids: Ids, taken: set<string>, n: int, m: int)
    requires Injective(ids)
    requires n <= m && !Taken(ids, taken, m) && forall k: int | n <= k < m :: Taken(ids, taken, k)
    ensures Scan(ids, taken, n) == m
  {
    var s := Scan(ids, taken, n);
    assert s < m ==> Taken(ids, taken, s);
    if m < s {
      ScanPassesTaken(ids, taken, n, m);
    }
  }

  /** When the start is taken, jumping past the last task id gives the same number as
      the linear scan if and only if all numbers from the start to the hint are taken
      or, for a hint below the start, all numbers between the two. */
  lemma JumpIsScanIff(ids: Ids, taken: set<string>, start: int, h: int)
    requires Injective(ids) && Taken(ids, taken, start)
    ensures Chosen(ids, taken, start, Some(h)) == Scan(ids, taken, start) <==>
      forall k: int | start <= k <= h || h < k < start :: Taken(ids, taken, k)
  {
    var m := Scan(ids, taken, start);
    forall k: int | start <= k < m ensures Taken(ids, taken, k) {
      ScanPassesTaken(ids, taken, start, k);
    }
    if forall k: int | start <= k <= h || h < k < start :: Taken(ids, taken, k) {
      assert h < m by {
        assert start <= m <= h ==> Taken(ids, taken, m);
      }
      ScanUnique(ids, taken, h + 1, m);
    } else if h < start && Scan(ids, taken, h + 1) == m {
      forall k: int | h < k < start ensures Taken(ids, taken, k) {
        ScanPassesTaken(ids, taken, h + 1, k);
      }
    }
  }

  /** The chosen number is below the start, where ids may be committed already,
      exactly when the start is pending and the id after the hint leads there. */
  lemma BelowStartIff(ids: Ids, taken: set<string>, start: int, hint: Option<int>)
    requires Injective(ids)
    ensures Chosen(ids, taken, start, hint) < start <==>
      Taken(ids, taken, start) && hint.Some? && (exists k: int | hint.value < k < start :: !Taken(ids, taken, k))
  {
    if Taken(ids, taken, start) && hint.Some? {
      var m := Scan(ids, taken, hint.value + 1);
      if m < start {
        assert hint.value < m < start && !Taken(ids, taken, m);
      } else {
        forall k: int | hint.value < k < start ensures Taken(ids, taken, k) {
          ScanPassesTaken(ids, taken, hint.value + 1, k);
        }
      }
    }
  }

  // ---- a run of calls ------------------------------------------------------

  function Hint(read: Reader, last: Option<string>): Option<int> {
    if last.Some? then read(last.value) else None
  }

  /** The numbers of k successive calls, each adding its task to the map and
      remembering it as the last one. */
  function Calls(ids: Ids, read: Reader, taken: set<string>, start: int, last: Option<string>, k: nat): (r: seq<int>)
    requires Injective(ids)
    ensures |r| == k
    decreases k
  {
    if k == 0 then []
    else
      var n := Chosen(ids, taken, start, Hint(read, last));
      [n] + Calls(ids, read, taken + {ids(n)}, start, Some(ids(n)), k - 1)
  }

  /** The pending numbers from start on are the first `done` ones, and the last
      task is the last of them. */
  ghost predicate RunState(ids: Ids, taken: set<string>, start: nat, last: Option<string>, done: nat) {
    && (forall j: int | j >= start :: Taken(ids, taken, j) <==> j < start + done)
    && (done > 0 ==> last == Some(ids(start + done - 1)))
  }

  /** An id is read as its number, or not as a number at all. */
  predicate ReadsAs(ids: Ids, read: Reader, n: nat) {
    read(ids(n)) == Some(n) || read(ids(n)) == None
  }

  ghost predicate NeverMisread(ids: Ids, read: Reader) {
    forall n: nat :: ReadsAs(ids, read, n)
  }

  lemma NextOfRun(ids: Ids, read: Reader, taken: set<string>, start: nat, last: Option<string>, done: nat)
    requires Injective(ids) && NeverMisread(ids, read) && RunState(ids, taken, start, last, done)
    ensures Chosen(ids, taken, start, Hint(read, last)) == start + done
  {
    assert Taken(ids, taken, start) <==> done > 0;
    assert !Taken(ids, taken, start + done);
    if done > 0 {
      assert ReadsAs(ids, read, start + done - 1);
      ScanUnique(ids, taken, start + 1, start + done);
    }
  }

  lemma RunGoesOn(ids: Ids, taken: set<string>, start: nat, last: Option<string>, done: nat)
    requires Injective(ids) && RunState(ids, taken, start, last, done)
    ensures RunState(ids, taken + {ids(start + done)}, start, Some(ids(start + done)), done + 1)
  {
    var after := taken + {ids(start + done)};
    forall j: int | j >= start ensures Taken(ids, after, j) <==> j < start + done + 1 {
      assert Taken(ids, taken, j) <==> j < start + done;
    }
  }

  function Count(n: int, k: nat): (r: seq<int>)
    ensures |r| == k && forall i | 0 <= i < k :: r[i] == n + i
    decreases k
  {
    if k == 0 then [] else [n] + Count(n + 1, k - 1)
  }

  lemma CallsUnfold(ids: Ids, read: Reader, taken: set<string>, start: int, last: Option<string>, k: nat, m: int)
    requires Injective(ids) && k > 0 && m == Chosen(ids, taken, start, Hint(read, last))
    ensures Calls(ids, read, taken, start, last, k)
         == [m] + Calls(ids, read, taken + {ids(m)}, start, Some(ids(m)), k - 1)
  {
  }

  lemma {:induction false} CallsAreConsecutive(ids: Ids, read: Reader, taken: set<string>, start: nat,
                                               last: Option<string>, done: nat, k: nat)
    requires Injective(ids) && NeverMisread(ids, read) && RunState(ids, taken, start, last, done)
    ensures Calls(ids, read, taken, start, last, k) == Count(start + done, k)
    decreases k
  {
    if k > 0 {
      NextOfRun(ids, read, taken, start, last, done);
      CallsUnfold(ids, read, taken, start, last, k, start + done);
      RunGoesOn(ids, taken, start, last, done);
      var id := ids(start + done);
      CallsAreConsecutive(ids, read, taken + {id}, start, Some(id), done + 1, k - 1);
    }
  }

  // ---- generic task ids ------------------------------------------------------

  function GenericIds(prefix: string, padding: nat): Ids {
    n => Format(prefix, padding, n)
  }

  /** The loop looks at ids that begin like generic ones, and swallows the
      ValueError of int(). */
  function GenericReader(start: string, delimiter: string): Reader
    requires delimiter != []
  {
    id => if start <= id then ParseNumber(id, delimiter) else None
  }

  lemma GenericIdsInjective(prefix: string, padding: nat)
    ensures Injective(GenericIds(prefix, padding))
  {
    var ids := GenericIds(prefix, padding);
    forall m, n | ids(m) == ids(n) ensures m == n {
      FormatInjective(prefix, padding, m, n);
    }
  }

  lemma NeverMisreadIds(prefix: string, isMergeTask: bool, padding: nat)
    requires prefix == [] || Readable(prefix, isMergeTask)
    ensures var begin := StylePrefix(prefix, isMergeTask);
      NeverMisread(GenericIds(begin, padding), GenericReader(begin, Delimiter(prefix)))
  {
    var begin := StylePrefix(prefix, isMergeTask);
    forall n: nat ensures ReadsAs(GenericIds(begin, padding), GenericReader(begin, Delimiter(prefix)), n) {
      if Readable(prefix, isMergeTask) {
        ParseUndoesFormat(prefix, isMergeTask, padding, n);
      } else {
        EmptyPrefixBreaksMergeIds(padding, n);
      }
    }
  }

  lemma FreshRun(ids: Ids, read: Reader, taken: set<string>, start: nat, last: Option<string>, k: nat)
    requires Injective(ids) && NeverMisread(ids, read) && forall j: int | j >= start :: !Taken(ids, taken, j)
    ensures Calls(ids, read, taken, start, last, k) == Count(start, k)
  {
    CallsAreConsecutive(ids, read, taken, start, last, 0, k);
  }

  /** With a readable prefix or none, k calls in a row for tasks of one kind yield
      k consecutive new numbers, from the one above the committed maximum on. */
  lemma GeneratedIdsAreConsecutive(prefix: string, isMergeTask: bool, padding: nat, taken: set<string>, start: nat,
                                   last: Option<string>, k: nat)
    requires prefix == [] || Readable(prefix, isMergeTask)
    requires forall j: int | j >= start :: !Taken(GenericIds(StylePrefix(prefix, isMergeTask), padding), taken, j)
    ensures var begin := StylePrefix(prefix, isMergeTask);
      && Injective(GenericIds(begin, padding))
      && Calls(GenericIds(begin, padding), GenericReader(begin, Delimiter(prefix)), taken, start, last, k)
         == Count(start, k)
  {
    var begin := StylePrefix(prefix, isMergeTask);
    GenericIdsInjective(begin, padding);
    NeverMisreadIds(prefix, isMergeTask, padding);
    FreshRun(GenericIds(begin, padding), GenericReader(begin, Delimiter(prefix)), taken, start, last, k);
  }

  // ---- the method ------------------------------------------------------

  /** The committed ids a call looks at: the cached list if it is for this
      prefix, else what the service lists (None: the service fails); in a
      federation without a cached list there is nothing to list. */
  function Listed(cached: Option<seq<string>>, service: Option<seq<string>>, federated: bool, prefix: string): Option<seq<string>> {
    if cached.Some? && (cached.value == [] || prefix <= cached.value[0]) then cached
    else if federated then None
    else service
  }

  /** int(id.split(delimiter)[-1]) */
  function NumberReader(delimiter: string): Reader
    requires delimiter != []
  {
    id => ParseNumber(id, delimiter)
  }

  /** The numbers of all ids; None if one of them has none. */
  function Numbers(ids: seq<string>, read: Reader): Option<seq<int>> {
    if ids == [] then Some([])
    else
      match (Numbers(ids[..|ids| - 1], read), read(ids[|ids| - 1]))
      case (Some(ns), Some(n)) => Some(ns + [n])
      case _ => None
  }

  function MaxOf(ns: seq<int>): (m: int)
    requires ns != []
    ensures m in ns && forall n | n in ns :: n <= m
  {
    var n := |ns| - 1;
    assert ns == ns[..n] + [ns[n]];
    if n == 0 then ns[0] else Max(MaxOf(ns[..n]), ns[n])
  }

  /** One above the greatest committed number; 0 if there is none. */
  function Base(ns: seq<int>): int {
    if ns == [] then 0 else MaxOf(ns) + 1
  }

  /** The first number to try: above the committed ones and not the reserved
      one. None is a ValueError of int(). */
  function StartNumber(ids: seq<string>, delimiter: string, reserved: Option<string>): Option<int>
    requires delimiter != []
  {
    match Numbers(ids, NumberReader(delimiter))
    case None => None
    case Some(numbers) =>
      if reserved.None? then Some(Base(numbers))
      else
        match ParseNumber(reserved.value, delimiter)
        case None => None
        case Some(n) => Some(if n == Base(numbers) then Base(numbers) + 1 else Base(numbers))
  }

  /** The committed ids a call looks at and the number it starts from. */
  function Prepared(prefix: string, isMergeTask: bool, cached: Option<seq<string>>, service: Option<seq<string>>,
                    federated: bool, reserved: Option<string>): Option<(seq<string>, int)>
  {
    var listed := Listed(cached, service, federated, StylePrefix(prefix, isMergeTask));
    var ids := if listed.Some? then listed.value else [];
    var start := StartNumber(ids, Delimiter(prefix), reserved);
    if start.None? then None else Some((ids, start.value))
  }

  method SkipReserved(base: int, reserved: int) returns (num: int)
    ensures num >= base && num != reserved
    ensures num == if base == reserved then base + 1 else base
  {
    num := base;
    while num == reserved
      invariant num == base || (num == base + 1 && base == reserved)
      decreases num == reserved
    {
      num := num + 1;
    }
  }

  /** The loop can still jump. */
  predicate Jumps(start: string, last: Option<string>) {
    last.Some? && start <= last.value
  }

  lemma HintIsParsed(prefix: string, delimiter: string, last: Option<string>)
    requires delimiter != []
    ensures Hint(GenericReader(prefix, delimiter), last) ==
      if Jumps(prefix, last) then ParseNumber(last.value, delimiter) else None
  {
  }

  /** Where the loop goes on after finding a number taken. */
  lemma GoesOnAt(ids: Ids, taken: set<string>, start: int, hint: Option<int>)
    requires Injective(ids) && Taken(ids, taken, start)
    ensures Chosen(ids, taken, start, hint) == Scan(ids, taken, (if hint.Some? then hint.value else start) + 1)
    ensures Scan(ids, taken, start) == Scan(ids, taken, start + 1)
  {
  }

  /** The probe loop, with its single jump to the last task id. */
  method Probe(prefix: string, padding: nat, delimiter: string, taskMap: set<string>, start: int, lastTaskId: Option<string>)
    returns (num: int, id: string)
    requires delimiter != [] && Injective(GenericIds(prefix, padding))
    ensures num == Chosen(GenericIds(prefix, padding), taskMap, start, Hint(GenericReader(prefix, delimiter), lastTaskId))
    ensures id == GenericIds(prefix, padding)(num) && id !in taskMap
  {
    ghost var ids := GenericIds(prefix, padding);
    ghost var hint := Hint(GenericReader(prefix, delimiter), lastTaskId);
    HintIsParsed(prefix, delimiter, lastTaskId);
    num, id := start, Format(prefix, padding, start);
    var last := lastTaskId;
    while id in taskMap
      invariant id == ids(num)
      invariant (num == start && last == lastTaskId) ||
        (!Jumps(prefix, last) && Scan(ids, taskMap, num) == Chosen(ids, taskMap, start, hint))
      decreases Jumps(prefix, last), Ahead(ids, taskMap, num)
    {
      assert Taken(ids, taskMap, num);
      AheadShrinks(ids, taskMap, num);
      GoesOnAt(ids, taskMap, num, hint);
      if last.Some? && prefix <= last.value {
        var parsed := ParseNumber(last.value, delimiter);
        if parsed.Some? {
          num := parsed.value;
        }
        last := None;
      }
      num := num + 1;
      id := Format(prefix, padding, num);
    }
  }

  method CommittedIds(cached: Option<seq<string>>, service: Option<seq<string>>, federated: bool, start: string)
    returns (ids: seq<string>)
    ensures var listed := Listed(cached, service, federated, start);
      ids == if listed.Some? then listed.value else []
  {
    var tasklist := cached;
    if tasklist.Some? && tasklist.value != [] && !(start <= tasklist.value[0]) {
      tasklist := None;
    }
    if tasklist.None? && !federated {
      tasklist := service;
    }
    ids := if tasklist.Some? then tasklist.value else [];
  }

  method FirstNumber(ids: seq<string>, delimiter: string, reserved: Option<string>) returns (r: Option<int>)
    requires delimiter != []
    ensures r == StartNumber(ids, delimiter, reserved)
  {
    var numbers := Numbers(ids, NumberReader(delimiter));
    if numbers.None? {
      return None;
    }
    r := Some(Base(numbers.value));
    if reserved.Some? {
      r := PastReserved(r.value, ParseNumber(reserved.value, delimiter));
    }
  }

  method PastReserved(base: int, reserved: Option<int>) returns (r: Option<int>)
    ensures r == if reserved.None? then None else Some(if reserved.value == base then base + 1 else base)
  {
    if reserved.None? {
      return None;
    }
    var num := SkipReserved(base, reserved.value);
    return Some(num);
  }

  /** _generate_next_generic_task_id */
  method GenerateNextGenericTaskId(prefix: string, padding: nat, isMergeTask: bool, cached: Option<seq<string>>,
                                   service: Option<seq<string>>, federated: bool, reserved: Option<string>,
                                   taskMap: set<string>, lastTaskId: Option<string>)
    returns (r: Option<(seq<string>, string)>)
    ensures r.Some? <==> Prepared(prefix, isMergeTask, cached, service, federated, reserved).Some?
    ensures r.Some? ==>
      var p := Prepared(prefix, isMergeTask, cached, service, federated, reserved).value;
      var begin := StylePrefix(prefix, isMergeTask);
      var ids := GenericIds(begin, padding);
      && Injective(ids) && r.value.0 == p.0 && r.value.1 !in taskMap
      && r.value.1 == ids(Chosen(ids, taskMap, p.1, Hint(GenericReader(begin, Delimiter(prefix)), lastTaskId)))
  {
    var begin := StylePrefix(prefix, isMergeTask);
    GenericIdsInjective(begin, padding);
    var ids := CommittedIds(cached, service, federated, begin);
    var start := FirstNumber(ids, Delimiter(prefix), reserved);
    if start.None? {
      return None;
    }
    var _, id := Probe(begin, padding, Delimiter(prefix), taskMap, start.value, lastTaskId);
    return Some((ids, id));
  }

  lemma {:induction false} NumbersOfAll(ids: seq<string>, read: Reader, i: nat)
    requires i < |ids| && Numbers(ids, read).Some?
    ensures |Numbers(ids, read).value| == |ids| && read(ids[i]) == Some(Numbers(ids, read).value[i])
  {
    var n := |ids| - 1;
    if i < n {
      NumbersOfAll(ids[..n], read, i);
    } else if n > 0 {
      NumbersOfAll(ids[..n], read, 0);
    }
  }

  lemma NumbersBelowBase(ids: seq<string>, read: Reader, i: nat)
    requires i < |ids| && Numbers(ids, read).Some?
    ensures read(ids[i]).Some? && read(ids[i]).value < Base(Numbers(ids, read).value)
  {
    NumbersOfAll(ids, read, i);
    var numbers := Numbers(ids, read).value;
    assert numbers[i] in numbers;
  }

  /** All committed ids read as numbers below the first one tried. */
  lemma CommittedAreBelow(ids: seq<string>, delimiter: string, reserved: Option<string>, start: int, i: nat)
    requires delimiter != [] && i < |ids| && StartNumber(ids, delimiter, reserved) == Some(start)
    ensures NumberReader(delimiter)(ids[i]).Some? && NumberReader(delimiter)(ids[i]).value < start
  {
    NumbersBelowBase(ids, NumberReader(delimiter), i);
  }

  /** s is the number next above those read from the ids, or 0 when there are none. */
  ghost predicate NextAbove(ids: seq<string>, read: Reader, s: int) {
    if ids == [] then s == 0
    else
      && (forall i :: 0 <= i < |ids| ==> IsBelow(ids[i], read, s))
      && (exists i :: 0 <= i < |ids| && read(ids[i]) == Some(s - 1))
  }

  predicate IsBelow(id: string, read: Reader, s: int) {
    read(id).Some? && read(id).value < s
  }

  lemma BaseOfNumbers(ids: seq<string>, read: Reader) returns (k: nat)
    requires ids != [] && Numbers(ids, read).Some?
    ensures k < |ids| && read(ids[k]) == Some(Base(Numbers(ids, read).value) - 1)
  {
    var ns := Numbers(ids, read).value;
    NumbersOfAll(ids, read, 0);
    k :| 0 <= k < |ns| && ns[k] == MaxOf(ns);
    NumbersOfAll(ids, read, k);
  }

  lemma BaseIsNextAbove(ids: seq<string>, read: Reader)
    requires Numbers(ids, read).Some?
    ensures NextAbove(ids, read, Base(Numbers(ids, read).value))
  {
    if ids != [] {
      var k := BaseOfNumbers(ids, read);
      forall i | 0 <= i < |ids| ensures IsBelow(ids[i], read, Base(Numbers(ids, read).value)) {
        NumbersBelowBase(ids, read, i);
      }
    }
  }

  /** The first number tried is the one next above the committed ones, or one more exactly
      if that one is reserved; there is none exactly if some id does not end in a number. */
  lemma StartIsNext(ids: seq<string>, delimiter: string, reserved: Option<string>)
    requires delimiter != []
    ensures StartNumber(ids, delimiter, reserved).None? <==>
      (exists i :: 0 <= i < |ids| && NumberReader(delimiter)(ids[i]).None?) ||
      (reserved.Some? && ParseNumber(reserved.value, delimiter).None?)
    ensures StartNumber(ids, delimiter, reserved).Some? ==>
      var start := StartNumber(ids, delimiter, reserved).value;
      exists s :: NextAbove(ids, NumberReader(delimiter), s) &&
        start == if reserved.Some? && ParseNumber(reserved.value, delimiter) == Some(s) then s + 1 else s
  {
    var read := NumberReader(delimiter);
    NumbersDefinedIff(ids, read);
    if Numbers(ids, read).Some? {
      BaseIsNextAbove(ids, read);
    }
  }

  lemma {:induction false} NumbersDefinedIff(ids: seq<string>, read: Reader)
    ensures Numbers(ids, read).Some? <==> forall i | 0 <= i < |ids| :: read(ids[i]).Some?
  {
    if ids != [] {
      var n := |ids| - 1;
      NumbersDefinedIff(ids[..n], read);
      assert forall i | 0 <= i < n :: ids[..n][i] == ids[i];
    }
  }

  /** So an id that is generated from there on is not a committed one. */
  lemma NewIdIsUncommitted(prefix: string, isMergeTask: bool, padding: nat, ids: seq<string>,
                           reserved: Option<string>, start: int, n: int)
    requires Readable(prefix, isMergeTask)
    requires StartNumber(ids, Delimiter(prefix), reserved) == Some(start) && n >= start
    ensures GenericIds(StylePrefix(prefix, isMergeTask), padding)(n) !in ids
  {
    var id := Format(StylePrefix(prefix, isMergeTask), padding, n);
    if id in ids {
      var i :| 0 <= i < |ids| && ids[i] == id;
      CommittedAreBelow(ids, Delimiter(prefix), reserved, start, i);
      if n < 0 {
        NegativeReads(prefix, isMergeTask, padding, n);
      } else {
        ParseUndoesFormat(prefix, isMergeTask, padding, n);
      }
    }
  }

  /** With the empty prefix, one committed merge task makes every call that lists
      it raise, for either kind of task. */
  lemma CommittedMergeIdRaises(padding: nat, ids: seq<string>, reserved: Option<string>, n: nat)
    requires Format(StylePrefix([], true), padding, n) in ids
    ensures StartNumber(ids, Delimiter([]), reserved) == None
  {
    EmptyPrefixBreaksMergeIds(padding, n);
    var i :| 0 <= i < |ids| && ids[i] == Format(StylePrefix([], true), padding, n);
    if Numbers(ids, NumberReader(Delimiter([]))).Some? {
      NumbersOfAll(ids, NumberReader(Delimiter([])), i);
    }
  }

  /** Calling again with the returned list starts from the same number, if the
      service lists only ids with the prefix. */
  lemma ReturnedListIsStable(prefix: string, isMergeTask: bool, cached: Option<seq<string>>,
                             service: Option<seq<string>>, federated: bool, reserved: Option<string>)
    requires service.Some? ==> forall id | id in service.value :: StylePrefix(prefix, isMergeTask) <= id
    ensures var p := Prepared(prefix, isMergeTask, cached, service, federated, reserved);
      p.Some? ==> Prepared(prefix, isMergeTask, Some(p.value.0), service, federated, reserved) == p
  {
    var st := StylePrefix(prefix, isMergeTask);
    var listed := Listed(cached, service, federated, st);
    if listed.Some? && listed.value != [] {
      assert listed.value[0] in listed.value;
    }
  }
}
