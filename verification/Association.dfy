/**
  Reading whether an installation belongs to an inbox: the whole update history is replayed through a validator, each
  reported difference is checked against the reported states, and the outcome is folded up.
*/
module Association {
  import opened Common

  /** A member identifier; its canonical encoding is taken to be one-to-one, so the identifier stands for it. */
  datatype Member = Installation(key: seq<byte>) | OtherKind(id: string)

  /** One entry of a reported state; an identifier that is missing or not understood is None. */
  datatype Entry = Entry(key: Option<Member>, identifier: Option<Member>)

  // ----- Identifier sets

  predicate Distinct<T(==)>(s: seq<T>) {
    forall i, j :: 0 <= i < j < |s| ==> s[i] != s[j]
  }

  function SetOf(members: seq<Option<Member>>): set<Member> {
    set m | m in members && m.Some? :: m.value
  }

  predicate WellFormed(members: seq<Option<Member>>) {
    Distinct(members) && forall i :: 0 <= i < |members| ==> members[i].Some?
  }

  /** Refuses a list with a duplicate or with an identifier that is not understood. */
  method IdentifierSet(members: seq<Option<Member>>) returns (r: Option<set<Member>>)
    ensures r == if WellFormed(members) then Some(SetOf(members)) else None
  {
    var result: set<Member> := {};
    for i := 0 to |members|
      invariant WellFormed(members[..i]) && result == SetOf(members[..i])
    {
      assert members[..i + 1] == members[..i] + [members[i]];
      if members[i].None? {
        return None;
      }
      if members[i].value in result {
        return None;
      }
      result := result + {members[i].value};
    }
    assert members[..|members|] == members;
    r := Some(result);
  }

  function Keys(entries: seq<Entry>): seq<Option<Member>> {
    seq(|entries|, i requires 0 <= i < |entries| => entries[i].key)
  }

  predicate EntriesAgree(entries: seq<Entry>) {
    forall i :: 0 <= i < |entries| ==> entries[i].key.Some? && entries[i].key == entries[i].identifier
  }

  method StateMemberSet(entries: seq<Entry>) returns (r: Option<set<Member>>)
    ensures r == if EntriesAgree(entries) && WellFormed(Keys(entries)) then Some(SetOf(Keys(entries))) else None
  {
    var i := 0;
    while i < |entries|
      invariant 0 <= i <= |entries| && EntriesAgree(entries[..i])
    {
      if entries[i].key.None? || entries[i].key != entries[i].identifier {
        return None;
      }
      i := i + 1;
    }
    r := IdentifierSet(Keys(entries));
  }

  // ----- The difference check

  lemma EqualBySize<T>(a: set<T>, b: set<T>)
    requires a <= b && |a| == |b|
    ensures a == b
  {
    assert b == a + (b - a);
    assert |b| == |a| + |b - a|;
  }

  /** Counts the members of one set that are missing from another and stops at one that was not announced. */
  method CountAnnounced(from: set<Member>, without: set<Member>, announced: set<Member>) returns (count: Option<nat>)
    ensures count.Some? <==> from - without <= announced
    ensures count.Some? ==> count.value == |from - without|
  {
    var n := 0;
    var rest := from;
    ghost var missing: set<Member> := {};
    while rest != {}
      invariant rest <= from && n == |missing| && missing <= announced
      invariant forall m :: m in missing <==> m in from && m !in rest && m !in without
      decreases rest
    {
      var key :| key in rest;
      rest := rest - {key};
      if key in without {
        continue;
      }
      n := n + 1;
      if key !in announced {
        return None;
      }
      missing := missing + {key};
    }
    assert missing == from - without;
    count := Some(n);
  }

  /** The counting check holds exactly when the announced sets are the set differences. */
  method DiffMatches(previous: set<Member>, current: set<Member>, added: set<Member>, removed: set<Member>)
    returns (ok: bool)
    ensures ok <==> added == current - previous && removed == previous - current
  {
    var expectedAdded := CountAnnounced(current, previous, added);
    if expectedAdded.None? || |added| != expectedAdded.value {
      return false;
    }
    EqualBySize(current - previous, added);
    var expectedRemoved := CountAnnounced(previous, current, removed);
    if expectedRemoved.None? || |removed| != expectedRemoved.value {
      return false;
    }
    EqualBySize(previous - current, removed);
    return true;
  }

  // ----- Replaying the history

  datatype Update = Update(inboxId: string, understood: bool, body: string)

  datatype Record = Record(sequence: nat, timestamp: nat, update: Option<Update>)

  datatype Diff = Diff(added: seq<Option<Member>>, removed: seq<Option<Member>>, understood: bool)

  datatype Response = Response(inboxId: string, entries: seq<Entry>, diff: Option<Diff>, seen: seq<string>,
                               understood: bool)

  /** The validator and the encoded sizes of what is exchanged with it. */
  datatype Services = Services(
    validate: (seq<Update>, Update) -> Option<Response>,
    updateSize: Update -> nat,
    requestSize: (seq<Update>, Update) -> nat,
    responseSize: Response -> nat)

  datatype Limits = Limits(updates: nat, updateBytes: nat, historyBytes: nat, validationBytes: nat, skew: nat)

  predicate Present(history: seq<Record>, n: nat) {
    n <= |history| && forall i :: 0 <= i < n ==> history[i].update.Some?
  }

  function Updates(history: seq<Record>, n: nat): (u: seq<Update>)
    requires Present(history, n)
    ensures |u| == n
  {
    seq(n, i requires 0 <= i < n => history[i].update.value)
  }

  /** The validator's answer on the first updates of the history and the one after them. */
  function ResponseAt(s: Services, history: seq<Record>, i: nat): Option<Response>
    requires Present(history, i + 1)
  {
    s.validate(Updates(history, i), history[i].update.value)
  }

  /** The members of the inbox after the first updates of the history; none before the first. */
  function MembersAfter(s: Services, history: seq<Record>, n: nat): set<Member>
    requires Present(history, n)
  {
    if n == 0 then {}
    else match ResponseAt(s, history, n - 1)
      case None => {}
      case Some(response) => SetOf(Keys(response.entries))
  }

  /** The reported difference is exactly the change from the previous members to the reported state. */
  predicate Changes(previous: set<Member>, response: Response) {
    && response.diff.Some? && response.diff.value.understood
    && EntriesAgree(response.entries) && WellFormed(Keys(response.entries))
    && WellFormed(response.diff.value.added) && WellFormed(response.diff.value.removed)
    && SetOf(response.diff.value.added) == SetOf(Keys(response.entries)) - previous
    && SetOf(response.diff.value.removed) == previous - SetOf(Keys(response.entries))
  }

  function HistoryBytes(s: Services, history: seq<Record>, n: nat): nat
    requires Present(history, n)
  {
    if n == 0 then 0 else HistoryBytes(s, history, n - 1) + s.updateSize(history[n - 1].update.value)
  }

  function ResponseBytes(s: Services, r: Option<Response>): nat {
    if r.None? then 0 else s.responseSize(r.value)
  }

  function ValidationBytes(s: Services, history: seq<Record>, n: nat): nat
    requires Present(history, n)
  {
    if n == 0 then 0
    else ValidationBytes(s, history, n - 1) + s.requestSize(Updates(history, n - 1), history[n - 1].update.value) +
         ResponseBytes(s, ResponseAt(s, history, n - 1))
  }

  /** The record is in order after the one before it. */
  predicate RecordOk(inboxId: string, history: seq<Record>, i: nat)
    requires i < |history|
  {
    var record := history[i];
    && record.update.Some? && record.update.value.inboxId == inboxId && record.update.value.understood
    && record.sequence > 0 && 0 < record.timestamp && record.timestamp / 1_000_000 <= MAX_SAFE_INTEGER
    && (i > 0 ==> history[i - 1].sequence < record.sequence && history[i - 1].timestamp <= record.timestamp)
  }

  predicate ResponseOk(s: Services, limits: Limits, inboxId: string, history: seq<Record>, i: nat)
    requires Present(history, i + 1)
  {
    var r := ResponseAt(s, history, i);
    && r.Some? && r.value.inboxId == inboxId && r.value.understood
    && 0 < s.responseSize(r.value) <= limits.historyBytes && Changes(MembersAfter(s, history, i), r.value)
  }

  predicate WithinLimits(s: Services, limits: Limits, history: seq<Record>, i: nat)
    requires Present(history, i + 1)
  {
    && s.updateSize(history[i].update.value) <= limits.updateBytes
    && HistoryBytes(s, history, i + 1) <= limits.historyBytes
    && s.requestSize(Updates(history, i), history[i].update.value) > 0
    && ValidationBytes(s, history, i + 1) <= limits.validationBytes
  }

  ghost predicate StepOk(s: Services, limits: Limits, inboxId: string, history: seq<Record>, i: nat)
    requires i < |history|
  {
    && RecordOk(inboxId, history, i) && Present(history, i + 1)
    && WithinLimits(s, limits, history, i) && ResponseOk(s, limits, inboxId, history, i)
  }

  ghost predicate Replays(s: Services, limits: Limits, inboxId: string, history: seq<Record>, n: nat)
    requires n <= |history|
  {
    forall i :: 0 <= i < n ==> StepOk(s, limits, inboxId, history, i)
  }

  datatype Observation = Observation(associated: bool, revoked: bool, position: nat)

  /** The change from the previous members to those of the response, if the reported difference says so. */
  method ValidatedTransition(previous: set<Member>, response: Response) returns (r: Option<set<Member>>)
    ensures r.Some? <==> Changes(previous, response)
    ensures r.Some? ==> r.value == SetOf(Keys(response.entries))
  {
    var current := StateMemberSet(response.entries);
    if current.None? || response.diff.None? || !response.diff.value.understood {
      return None;
    }
    var added := IdentifierSet(response.diff.value.added);
    if added.None? {
      return None;
    }
    var removed := IdentifierSet(response.diff.value.removed);
    if removed.None? {
      return None;
    }
    var ok := DiffMatches(previous, current.value, added.value, removed.value);
    if !ok {
      return None;
    }
    return current;
  }

  /** Whether the installation is among the identifiers. */
  method Mentions(members: seq<Option<Member>>, installation: seq<byte>) returns (found: bool)
    ensures found <==> Installation(installation) in SetOf(members)
  {
    found := false;
    for i := 0 to |members|
      invariant found <==> Some(Installation(installation)) in members[..i]
    {
      assert members[..i + 1] == members[..i] + [members[i]];
      if members[i] == Some(Installation(installation)) {
        found := true;
      }
    }
    assert members[..|members|] == members;
  }

  /** The clock is in range and not behind the last update by more than the allowed skew. */
  predicate ClockOk(now: int, lastUpdate: nat, skew: nat) {
    0 <= now / 1_000_000 <= MAX_SAFE_INTEGER && lastUpdate <= now + skew
  }

  /** The installation was a member after some of the first updates. */
  ghost predicate WasMember(s: Services, history: seq<Record>, n: nat, m: Member)
    requires Present(history, n)
  {
    exists k :: 1 <= k <= n && m in MembersAfter(s, history, k)
  }

  lemma WasMemberGrows(s: Services, history: seq<Record>, n: nat, m: Member)
    requires Present(history, n + 1)
    ensures WasMember(s, history, n + 1, m) <==> WasMember(s, history, n, m) || m in MembersAfter(s, history, n + 1)
  {
  }

  /** One update: its checks, the validator's answer, and the members it leaves. */
  method ReplayStep(s: Services, limits: Limits, inboxId: string, history: seq<Record>, i: nat, updates: seq<Update>,
                    previous: set<Member>, historyBytes: nat, validationBytes: nat)
    returns (r: Option<Response>)
    requires i < |history| && Present(history, i)
    requires updates == Updates(history, i) && previous == MembersAfter(s, history, i)
    requires historyBytes == HistoryBytes(s, history, i) && validationBytes == ValidationBytes(s, history, i)
    ensures r.Some? <==> StepOk(s, limits, inboxId, history, i)
    ensures r.Some? ==> r == ResponseAt(s, history, i)
  {
    if !RecordOk(inboxId, history, i) {
      return None;
    }
    var update := history[i].update.value;
    var size := s.updateSize(update);
    if size > limits.updateBytes || historyBytes + size > limits.historyBytes {
      return None;
    }
    var request := s.requestSize(updates, update);
    if request == 0 || validationBytes + request > limits.validationBytes {
      return None;
    }
    var response := s.validate(updates, update);
    if response.None? || response.value.inboxId != inboxId || !response.value.understood {
      return None;
    }
    var answer := s.responseSize(response.value);
    if answer > limits.historyBytes || answer == 0 || validationBytes + request + answer > limits.validationBytes {
      return None;
    }
    var current := ValidatedTransition(previous, response.value);
    if current.None? {
      return None;
    }
    return response;
  }

  /**
    Succeeds exactly when every update replays in order. The installation is then associated if it is a member of the
    final state, and revoked if it is not but was a member after some of the updates.
  */
  method ReadAssociation(s: Services, limits: Limits, inboxId: string, installation: seq<byte>, history: seq<Record>,
                         now: int)
    returns (r: Option<Observation>)
    ensures r.Some? <==>
              && LowerHex64(inboxId) && 0 < |history| <= limits.updates
              && Replays(s, limits, inboxId, history, |history|)
              && Present(history, |history|) && ResponseAt(s, history, |history| - 1).Some?
              && Distinct(ResponseAt(s, history, |history| - 1).value.seen)
              && ClockOk(now, history[|history| - 1].timestamp, limits.skew)
    ensures r.Some? ==>
              var m := Installation(installation);
              && (r.value.associated <==> m in MembersAfter(s, history, |history|))
              && (r.value.revoked <==> m !in MembersAfter(s, history, |history|) && WasMember(s, history, |history|, m))
              && r.value.position == history[|history| - 1].sequence
  {
    if !LowerHex64(inboxId) || |history| == 0 || |history| > limits.updates {
      return None;
    }
    var updates: seq<Update>, previous: set<Member>, removed := [], {}, false;
    var historyBytes, validationBytes := 0, 0;
    var last: Option<Response> := None;
    ghost var m := Installation(installation);
    for i := 0 to |history|
      invariant Replays(s, limits, inboxId, history, i) && Present(history, i) && updates == Updates(history, i)
      invariant previous == MembersAfter(s, history, i)
      invariant historyBytes == HistoryBytes(s, history, i) && validationBytes == ValidationBytes(s, history, i)
      invariant i > 0 ==> last == ResponseAt(s, history, i - 1) && last.Some?
      invariant removed || m in previous <==> WasMember(s, history, i, m)
    {
      var response := ReplayStep(s, limits, inboxId, history, i, updates, previous, historyBytes, validationBytes);
      if response.None? {
        return None;
      }
      WasMemberGrows(s, history, i, m);
      var update := history[i].update.value;
      historyBytes := historyBytes + s.updateSize(update);
      validationBytes := validationBytes + s.requestSize(updates, update) + s.responseSize(response.value);
      var gone := Mentions(response.value.diff.value.removed, installation);
      removed := removed || gone;
      updates := updates + [update];
      previous := SetOf(Keys(response.value.entries));
      last := response;
    }
    if !Distinct(last.value.seen) {
      return None;
    }
    var associated := Mentions(Keys(last.value.entries), installation);
    if !ClockOk(now, history[|history| - 1].timestamp, limits.skew) {
      return None;
    }
    return Some(Observation(associated, !associated && removed, history[|history| - 1].sequence));
  }

  // ----- Fetching the history

  /** The identity service: the updates it sends after a position, or a failure. */
  type Client = nat -> Option<seq<Record>>

  ghost predicate Ascending(log: seq<Record>) {
    forall i, j :: 0 <= i < j < |log| ==> log[i].sequence < log[j].sequence
  }

  /** The log from index `k` on is what comes after the position. */
  ghost predicate CutsAt(log: seq<Record>, cursor: nat, k: nat) {
    && k <= |log|
    && (forall i :: 0 <= i < k ==> log[i].sequence <= cursor)
    && (forall i :: k <= i < |log| ==> log[i].sequence > cursor)
  }

  /** Whatever the service sends is the next stretch of the log, and it sends nothing only at the end of the log. */
  ghost predicate Serves(client: Client, log: seq<Record>) {
    && Ascending(log)
    && forall cursor: nat, k: nat {:trigger CutsAt(log, cursor, k)} ::
         CutsAt(log, cursor, k) && client(cursor).Some? ==>
           client(cursor).value <= log[k..] && (client(cursor).value == [] ==> k == |log|)
  }

  predicate Fits(inboxId: string, after: nat, record: Record) {
    && record.update.Some? && record.update.value.inboxId == inboxId && record.update.value.understood
    && after < record.sequence
  }

  function Before(cursor: nat, page: seq<Record>, i: nat): nat
    requires i <= |page|
  {
    if i == 0 then cursor else page[i - 1].sequence
  }

  /** The first updates of a page are for this inbox, each after the one before it and all after the cursor. */
  predicate PageOk(inboxId: string, cursor: nat, page: seq<Record>, n: nat) {
    && n <= |page|
    && forall i {:trigger Before(cursor, page, i)} :: 0 <= i < n ==> Fits(inboxId, Before(cursor, page, i), page[i])
  }

  lemma PagesJoin(inboxId: string, result: seq<Record>, page: seq<Record>)
    requires PageOk(inboxId, 0, result, |result|) && PageOk(inboxId, Before(0, result, |result|), page, |page|)
    ensures PageOk(inboxId, 0, result + page, |result + page|)
  {
    var all := result + page;
    forall i | 0 <= i < |all|
      ensures Fits(inboxId, Before(0, all, i), all[i])
    {
      if i < |result| {
        assert all[i] == result[i] && Before(0, all, i) == Before(0, result, i);
      } else {
        var j := i - |result|;
        assert all[i] == page[j] && Before(0, all, i) == Before(Before(0, result, |result|), page, j);
      }
    }
  }

  /** The updates of a page keep within the byte limits, after those already read. */
  predicate BytesFit(s: Services, limits: Limits, page: seq<Record>, bytes: nat, n: nat)
    requires Present(page, n)
  {
    forall i :: 0 <= i < n ==>
      && s.updateSize(page[i].update.value) <= limits.updateBytes
      && bytes + HistoryBytes(s, page, i + 1) <= limits.historyBytes
  }

  predicate Takes(s: Services, limits: Limits, inboxId: string, cursor: nat, page: seq<Record>, bytes: nat) {
    PageOk(inboxId, cursor, page, |page|) && Present(page, |page|) && BytesFit(s, limits, page, bytes, |page|)
  }

  method ReadPage(s: Services, limits: Limits, inboxId: string, cursor: nat, page: seq<Record>, bytes: nat)
    returns (r: Option<nat>)
    ensures r.Some? <==> Takes(s, limits, inboxId, cursor, page, bytes)
    ensures r.Some? ==> r.value == bytes + HistoryBytes(s, page, |page|)
  {
    var total, last := bytes, cursor;
    for i := 0 to |page|
      invariant PageOk(inboxId, cursor, page, i) && Present(page, i) && last == Before(cursor, page, i)
      invariant BytesFit(s, limits, page, bytes, i) && total == bytes + HistoryBytes(s, page, i)
    {
      var record := page[i];
      if !Fits(inboxId, last, record) {
        return None;
      }
      var size := s.updateSize(record.update.value);
      if size > limits.updateBytes || total + size > limits.historyBytes {
        return None;
      }
      total := total + size;
      last := record.sequence;
    }
    r := Some(total);
  }

  lemma {:induction false} BytesJoin(s: Services, a: seq<Record>, b: seq<Record>, n: nat)
    requires Present(a, |a|) && Present(b, n)
    ensures Present(a + b, |a| + n)
    ensures HistoryBytes(s, a + b, |a| + n) == HistoryBytes(s, a, |a|) + HistoryBytes(s, b, n)
  {
    if n == 0 {
      BytesPrefix(s, a, b, |a|);
    } else {
      BytesJoin(s, a, b, n - 1);
    }
  }

  lemma {:induction false} BytesPrefix(s: Services, a: seq<Record>, b: seq<Record>, n: nat)
    requires Present(a, n)
    ensures Present(a + b, n) && HistoryBytes(s, a + b, n) == HistoryBytes(s, a, n)
  {
    if n > 0 {
      BytesPrefix(s, a, b, n - 1);
    }
  }

  /** A service that always answers in pages of the allowed size, with a log that the limits allow. */
  ghost predicate Answers(s: Services, limits: Limits, inboxId: string, client: Client, maxPages: nat,
                          maxPageUpdates: nat, log: seq<Record>)
  {
    && LowerHex64(inboxId) && Serves(client, log)
    && (forall cursor: nat :: client(cursor).Some? && |client(cursor).value| <= maxPageUpdates)
    && Takes(s, limits, inboxId, 0, log, 0) && |log| <= limits.updates && |log| < maxPages
  }

  lemma StretchInOrder(inboxId: string, log: seq<Record>, result: seq<Record>, page: seq<Record>)
    requires PageOk(inboxId, 0, log, |log|) && result + page <= log
    ensures Present(result, |result|) && Present(page, |page|)
    ensures PageOk(inboxId, Before(0, result, |result|), page, |page|)
  {
    var k := |result|;
    forall i | 0 <= i < k
      ensures result[i].update.Some?
    {
      assert result[i] == (result + page)[i] == log[i];
      assert Fits(inboxId, Before(0, log, i), log[i]);
    }
    forall j | 0 <= j < |page|
      ensures page[j].update.Some? && Fits(inboxId, Before(Before(0, result, k), page, j), page[j])
    {
      assert page[j] == (result + page)[k + j] == log[k + j];
      assert j > 0 ==> page[j - 1] == (result + page)[k + j - 1] == log[k + j - 1];
      assert j == 0 && k > 0 ==> result[k - 1] == (result + page)[k - 1] == log[k - 1];
      assert Fits(inboxId, Before(0, log, k + j), log[k + j]);
    }
  }

  lemma {:induction false} BytesAgree(s: Services, a: seq<Record>, b: seq<Record>, n: nat)
    requires Present(a, n) && n <= |b| && forall i :: 0 <= i < n ==> a[i] == b[i]
    ensures Present(b, n) && HistoryBytes(s, a, n) == HistoryBytes(s, b, n)
  {
    if n > 0 {
      BytesAgree(s, a, b, n - 1);
    }
  }

  lemma StretchOfLog(s: Services, log: seq<Record>, result: seq<Record>, page: seq<Record>, j: nat)
    requires Present(log, |log|) && result + page <= log && j < |page|
    requires Present(result, |result|) && Present(page, |page|)
    ensures page[j] == log[|result| + j]
    ensures HistoryBytes(s, log, |result| + j + 1) == HistoryBytes(s, result, |result|) + HistoryBytes(s, page, j + 1)
  {
    BytesJoin(s, result, page, j + 1);
    BytesAgree(s, result + page, log, |result| + j + 1);
    assert page[j] == (result + page)[|result| + j];
  }

  lemma StretchBytes(s: Services, limits: Limits, log: seq<Record>, result: seq<Record>, page: seq<Record>, j: nat)
    requires Present(log, |log|) && BytesFit(s, limits, log, 0, |log|)
    requires result + page <= log && j < |page| && Present(result, |result|) && Present(page, |page|)
    ensures s.updateSize(page[j].update.value) <= limits.updateBytes
    ensures HistoryBytes(s, result, |result|) + HistoryBytes(s, page, j + 1) <= limits.historyBytes
  {
    StretchOfLog(s, log, result, page, j);
    assert log[|result| + j].update.Some?;
  }

  /** Any stretch of a log that fits the limits fits them after what precedes it. */
  lemma StretchFits(s: Services, limits: Limits, inboxId: string, log: seq<Record>, result: seq<Record>,
                    page: seq<Record>)
    requires Takes(s, limits, inboxId, 0, log, 0) && result + page <= log
    ensures Present(result, |result|)
    ensures Takes(s, limits, inboxId, Before(0, result, |result|), page, HistoryBytes(s, result, |result|))
  {
    StretchInOrder(inboxId, log, result, page);
    forall j | 0 <= j < |page|
      ensures s.updateSize(page[j].update.value) <= limits.updateBytes
      ensures HistoryBytes(s, result, |result|) + HistoryBytes(s, page, j + 1) <= limits.historyBytes
    {
      StretchBytes(s, limits, log, result, page, j);
    }
  }

  /** The cursor stands after what has been read, and what has been read is the start of the log. */
  ghost predicate ReadSoFar(client: Client, log: seq<Record>, result: seq<Record>, cursor: nat) {
    Serves(client, log) ==> result <= log && CutsAt(log, cursor, |result|)
  }

  lemma PageExtends(client: Client, log: seq<Record>, result: seq<Record>, cursor: nat, page: seq<Record>)
    requires ReadSoFar(client, log, result, cursor) && client(cursor) == Some(page) && page != []
    ensures ReadSoFar(client, log, result + page, page[|page| - 1].sequence)
  {
    if Serves(client, log) {
      var k := |result|;
      assert CutsAt(log, cursor, k) && page <= log[k..];
      assert result + page <= log;
      assert log[k + |page| - 1] == page[|page| - 1];
    }
  }

  lemma PageTaken(s: Services, limits: Limits, inboxId: string, client: Client, maxPages: nat, maxPageUpdates: nat,
                  log: seq<Record>, result: seq<Record>, page: seq<Record>)
    requires Answers(s, limits, inboxId, client, maxPages, maxPageUpdates, log) && Present(result, |result|)
    requires var cursor := Before(0, result, |result|);
             ReadSoFar(client, log, result, cursor) && client(cursor) == Some(page)
    ensures |page| <= maxPageUpdates && |result| + |page| <= limits.updates
    ensures Takes(s, limits, inboxId, Before(0, result, |result|), page, HistoryBytes(s, result, |result|))
  {
    var cursor := Before(0, result, |result|);
    assert CutsAt(log, cursor, |result|);
    assert client(cursor).Some?;
    assert result + page <= log;
    StretchFits(s, limits, inboxId, log, result, page);
  }

  /**
    Pages are followed until the service has nothing more. For any log that the service serves, whatever the sizes of
    its pages, a successful read is that whole log, in ascending order and all of it for this inbox; and the read
    succeeds if the service always answers, in pages of the allowed size, and the log is within the limits.
  */
  method CompleteHistory(s: Services, limits: Limits, inboxId: string, client: Client, maxPages: nat,
                         maxPageUpdates: nat, ghost log: seq<Record>)
    returns (r: Option<seq<Record>>)
    requires forall i :: 0 <= i < |log| ==> log[i].sequence > 0
    ensures r.Some? ==> |r.value| <= limits.updates && PageOk(inboxId, 0, r.value, |r.value|)
    ensures r.Some? && Serves(client, log) ==> r.value == log
    ensures Answers(s, limits, inboxId, client, maxPages, maxPageUpdates, log) ==> r.Some?
  {
    if !LowerHex64(inboxId) {
      return None;
    }
    var result: seq<Record>, bytes, cursor := [], 0, 0;
    for page := 0 to maxPages
      invariant |result| <= limits.updates && |result| >= page && PageOk(inboxId, 0, result, |result|)
      invariant Present(result, |result|) && bytes == HistoryBytes(s, result, |result|)
      invariant cursor == Before(0, result, |result|)
      invariant ReadSoFar(client, log, result, cursor)
    {
      var reply := client(cursor);
      if reply.None? {
        return None;
      }
      var updates := reply.value;
      if |updates| == 0 {
        assert CutsAt(log, cursor, |result|) || !Serves(client, log);
        return Some(result);
      }
      if Answers(s, limits, inboxId, client, maxPages, maxPageUpdates, log) {
        PageTaken(s, limits, inboxId, client, maxPages, maxPageUpdates, log, result, updates);
      }
      if |updates| > maxPageUpdates || |result| + |updates| > limits.updates {
        return None;
      }
      var total := ReadPage(s, limits, inboxId, cursor, updates, bytes);
      if total.None? {
        return None;
      }
      PageExtends(client, log, result, cursor, updates);
      PagesJoin(inboxId, result, updates);
      BytesJoin(s, result, updates, |updates|);
      bytes, result := total.value, result + updates;
      cursor := updates[|updates| - 1].sequence;
    }
    return None;
  }
}
