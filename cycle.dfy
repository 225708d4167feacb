/**
 * One run of the alert engine (`main_loop`): the schedule gate, the symbol
 * lists of the users with notifications on, one download per ticker of the
 * union, then per user the crosses found on the cached frames and, when
 * there is at least one, one alert e-mail.
 *
 * The database query, the downloads, the company-name lookups and the send
 * time are inputs; sending is an append to the outbox's log.
 */
module Cycle {
  import opened Wrappers
  import opened Signal
  import opened Text
  import opened Symbols
  import opened Fetch
  import opened Email
  import opened Schedule
  import opened Models

  const Subject: string := "【株式テクニカル分析検出通知】"

  datatype Mail = Mail(to: Option<string>, subject: string, body: string)

  /** The mail transport, seen as the log of the messages handed to it. */
  class Outbox {
    var sent: seq<Mail>

    constructor ()
      ensures sent == []
    {
      sent := [];
    }

    /** `send_email`: the message is handed to the transport; delivery failures are only logged. */
    method Send(to: Option<string>, subject: string, body: string)
      modifies this
      ensures sent == old(sent) + [Mail(to, subject, body)]
    {
      sent := sent + [Mail(to, subject, body)];
    }
  }

  /** The clock and calendar inputs of the schedule gate. */
  datatype Moment = Moment(jst: LocalTime, jpHoliday: bool, ny: LocalTime, usHoliday: bool) {
    predicate Valid() {
      jst.Valid() && ny.Valid()
    }

    predicate Open()
      requires Valid()
    {
      IsWithinSchedule(jst, jpHoliday, ny, usHoliday)
    }
  }

  /** Every cached frame has at least one bar. */
  predicate CacheWellFormed(cache: map<string, Bars>) {
    forall t :: t in cache ==> BarCount(cache[t]) >= 1
  }

  /** A symbol of a user's list signals: its ticker is cached and the detector reports a cross. */
  predicate Fires(sym: string, cache: map<string, Bars>)
    requires sym != "" && CacheWellFormed(cache)
  {
    FetchName(sym) in cache && LastCross(cache[FetchName(sym)]).Some?
  }

  /** One user's `results`: (symbol, cross text) for each signalling symbol, in list order. */
  function UserSignals(syms: seq<string>, cache: map<string, Bars>): (results: seq<(string, string)>)
    requires NonBlank(syms) && CacheWellFormed(cache)
    ensures |results| <= |syms|
    ensures forall k :: 0 <= k < |results| ==> results[k].0 in syms && results[k].0 != ""
    decreases |syms|
  {
    if syms == [] then []
    else
      var init := UserSignals(syms[..|syms| - 1], cache);
      var sym := syms[|syms| - 1];
      if Fires(sym, cache) then init + [(sym, CrossText(LastCross(cache[FetchName(sym)]).value))]
      else init
  }

  /** Some symbol of the list signals. */
  predicate AnyFires(syms: seq<string>, cache: map<string, Bars>)
    requires NonBlank(syms) && CacheWellFormed(cache)
  {
    exists k :: 0 <= k < |syms| && Fires(syms[k], cache)
  }

  /** A user has results exactly when one of their symbols signals. */
  lemma {:induction false} UserSignalsNonEmpty(syms: seq<string>, cache: map<string, Bars>)
    requires NonBlank(syms) && CacheWellFormed(cache)
    ensures UserSignals(syms, cache) != [] <==> AnyFires(syms, cache)
    decreases |syms|
  {
    if syms != [] {
      var n := |syms|;
      var init := syms[..n - 1];
      UserSignalsNonEmpty(init, cache);
      if AnyFires(init, cache) {
        var k :| 0 <= k < n - 1 && Fires(init[k], cache);
        assert syms[k] == init[k];
      }
      if AnyFires(syms, cache) {
        var k :| 0 <= k < n && Fires(syms[k], cache);
        if k < n - 1 {
          assert init[k] == syms[k];
        }
      }
    }
  }

  /** Results follow the order of the user's list: they distribute over concatenation. */
  lemma {:induction false} UserSignalsAppend(a: seq<string>, b: seq<string>, cache: map<string, Bars>)
    requires NonBlank(a) && NonBlank(b) && CacheWellFormed(cache)
    ensures NonBlank(a + b)
    ensures UserSignals(a + b, cache) == UserSignals(a, cache) + UserSignals(b, cache)
    decreases |b|
  {
    if b == [] {
      assert a + b == a;
    } else {
      var n := |b|;
      UserSignalsAppend(a, b[..n - 1], cache);
      assert (a + b)[..|a + b| - 1] == a + b[..n - 1];
    }
  }

  /** The per-user loop over the symbol list, running the detector on each cached frame. */
  method CollectResults(syms: seq<string>, cache: map<string, Bars>) returns (results: seq<(string, string)>)
    requires NonBlank(syms) && CacheWellFormed(cache)
    ensures results == UserSignals(syms, cache)
  {
    results := [];
    for i := 0 to |syms|
      invariant results == UserSignals(syms[..i], cache)
    {
      var sym := syms[i];
      var actual := if IsDigit(sym[0]) then sym + ".T" else sym;
      assert syms[..i + 1][..i] == syms[..i];
      if actual in cache {
        var crossType := DetectCross(cache[actual]);
        if crossType.Some? {
          results := results + [(sym, CrossText(crossType.value))];
        }
      }
    }
    assert syms[..|syms|] == syms;
  }

  /** The users the query returns: notifications on, in database order. */
  function Enabled(users: seq<UserRow>): (e: seq<UserRow>)
    ensures |e| <= |users|
    ensures forall k :: 0 <= k < |e| ==> e[k] in users && e[k].notifyEnabled
    decreases |users|
  {
    if users == [] then []
    else
      var init := Enabled(users[..|users| - 1]);
      if users[|users| - 1].notifyEnabled then init + [users[|users| - 1]] else init
  }

  /** The query returns every user with notifications on, and no other. */
  lemma {:induction false} EnabledMember(users: seq<UserRow>, u: UserRow)
    ensures u in Enabled(users) <==> u in users && u.notifyEnabled
    decreases |users|
  {
    if users != [] {
      var n := |users|;
      EnabledMember(users[..n - 1], u);
      assert users == users[..n - 1] + [users[n - 1]];
    }
  }

  /** The query keeps table order: filtering distributes over concatenation. */
  lemma {:induction false} EnabledAppend(a: seq<UserRow>, b: seq<UserRow>)
    ensures Enabled(a + b) == Enabled(a) + Enabled(b)
    decreases |b|
  {
    if b == [] {
      assert a + b == a;
    } else {
      var n := |b|;
      EnabledAppend(a, b[..n - 1]);
      assert (a + b)[..|a + b| - 1] == a + b[..n - 1];
    }
  }

  /** The engine reads the watch list of every enabled user; a null list would crash it. */
  predicate ListsPresent(users: seq<UserRow>) {
    forall u :: u in users && u.notifyEnabled ==> u.symbols.Some?
  }

  /** `id` is the primary key. */
  predicate DistinctIds(users: seq<UserRow>) {
    forall i, j :: 0 <= i < j < |users| ==> users[i].id != users[j].id
  }

  /** Every list of `user_map` holds non-blank symbols only. */
  predicate Parsed(userMap: seq<(UserRow, seq<string>)>) {
    forall k :: 0 <= k < |userMap| ==> NonBlank(userMap[k].1)
  }

  /** `user_map`: each enabled user with their parsed list, in query order. */
  function UserMap(enabled: seq<UserRow>): (m: seq<(UserRow, seq<string>)>)
    requires forall k :: 0 <= k < |enabled| ==> enabled[k].symbols.Some?
    ensures |m| == |enabled| && Parsed(m)
    ensures forall k :: 0 <= k < |m| ==> m[k] == (enabled[k], ParseSymbols(enabled[k].symbols.value))
    decreases |enabled|
  {
    if enabled == [] then []
    else
      var n := |enabled|;
      UserMap(enabled[..n - 1]) + [(enabled[n - 1], ParseSymbols(enabled[n - 1].symbols.value))]
  }

  /** The lists of `user_map`, in order. */
  function ListsOf(m: seq<(UserRow, seq<string>)>): seq<seq<string>>
  {
    seq(|m|, k requires 0 <= k < |m| => m[k].1)
  }

  /** The union of the parsed lists (`all_symbols`) holds no blank symbol. */
  lemma UnionNonBlank(m: seq<(UserRow, seq<string>)>)
    requires Parsed(m)
    ensures forall s :: s in AllSymbols(ListsOf(m)) ==> s != ""
  {
    forall s | s in AllSymbols(ListsOf(m)) ensures s != "" {
      var k :| 0 <= k < |m| && s in ListsOf(m)[k];
      var j :| 0 <= j < |m[k].1| && m[k].1[j] == s;
    }
  }


  /** The tickers downloaded in a run. */
  function Targets(users: seq<UserRow>): (ts: set<string>)
    requires ListsPresent(users)
    ensures forall t :: t in ts ==> t != ""
  {
    UnionNonBlank(UserMap(Enabled(users)));
    FetchSet(AllSymbols(ListsOf(UserMap(Enabled(users)))))
  }

  /** The mail a user with the parsed list `syms` gets, if any. */
  function MailFor(u: UserRow, syms: seq<string>, cache: map<string, Bars>, timestamp: string,
                   lookup: string -> NameInfo): (r: Option<Mail>)
    requires NonBlank(syms) && CacheWellFormed(cache)
    ensures r.Some? ==> r.value.to == u.email && r.value.subject == Subject
  {
    var results := UserSignals(syms, cache);
    if results == [] then None
    else Some(Mail(u.email, Subject, Assemble(timestamp, Entries(Group(results, true), lookup),
                                              Entries(Group(results, false), lookup))))
  }

  /** The mails sent to one user: none or one. */
  function MailsOf(u: UserRow, syms: seq<string>, cache: map<string, Bars>, timestamp: string,
                   lookup: string -> NameInfo): seq<Mail>
    requires NonBlank(syms) && CacheWellFormed(cache)
  {
    match MailFor(u, syms, cache, timestamp, lookup)
    case Some(m) => [m]
    case None => []
  }

  /** The mails of a run, one per signalling user, in `user_map` order. */
  function Mails(userMap: seq<(UserRow, seq<string>)>, cache: map<string, Bars>, timestamp: string,
                 lookup: string -> NameInfo): seq<Mail>
    requires Parsed(userMap) && CacheWellFormed(cache)
    decreases |userMap|
  {
    if userMap == [] then []
    else
      var n := |userMap|;
      Mails(userMap[..n - 1], cache, timestamp, lookup) + MailsOf(userMap[n - 1].0, userMap[n - 1].1, cache, timestamp, lookup)
  }

  /** What a run reports: skipped by the gate, or what it fetched. */
  datatype Report =
    | Skipped
    | Ran(targets: set<string>, fetched: set<string>, failed: set<string>, pauses: nat)

  /**
   * `main_loop`. Outside the schedule nothing happens. Otherwise every ticker
   * of the fetch set is downloaded once, and each enabled user with at least
   * one signalling symbol is sent one mail, in query order.
   */
  method MainLoop(now: Moment, users: seq<UserRow>, download: string -> Download,
                  lookup: string -> NameInfo, timestamp: string, outbox: Outbox)
    returns (report: Report)
    requires now.Valid() && ListsPresent(users) && DistinctIds(users)
    modifies outbox
    ensures !now.Open() ==> report == Skipped && outbox.sent == old(outbox.sent)
    ensures now.Open() ==>
              var cache := CacheOf(Targets(users), download);
              && report == Ran(Targets(users), cache.Keys, Targets(users) - cache.Keys,
                               |cache| / CooldownEvery)
              && outbox.sent == old(outbox.sent) + Mails(UserMap(Enabled(users)), cache, timestamp, lookup)
  {
    if !IsWithinSchedule(now.jst, now.jpHoliday, now.ny, now.usHoliday) {
      return Skipped;
    }
    var enabled := Enabled(users);
    var userMap, allSymbols := GatherLists(enabled);
    UnionNonBlank(userMap);
    var symbolsToFetch := FetchSet(allSymbols);
    var cache, failed, pauses := FetchAll(symbolsToFetch, download);
    NotifyAll(userMap, cache, timestamp, lookup, outbox);
    report := Ran(symbolsToFetch, cache.Keys, failed, pauses);
  }

  /** The first loop of a run: each enabled user's parsed list, and their union. */
  method GatherLists(enabled: seq<UserRow>) returns (userMap: seq<(UserRow, seq<string>)>, allSymbols: set<string>)
    requires forall k :: 0 <= k < |enabled| ==> enabled[k].symbols.Some?
    ensures userMap == UserMap(enabled)
    ensures allSymbols == AllSymbols(ListsOf(userMap))
  {
    userMap := [];
    allSymbols := {};
    for i := 0 to |enabled|
      invariant userMap == UserMap(enabled[..i])
      invariant allSymbols == AllSymbols(ListsOf(userMap))
    {
      var u := enabled[i];
      var syms := ParseSymbols(u.symbols.value);
      assert enabled[..i + 1][..i] == enabled[..i];
      UnionSnoc(userMap, (u, syms));
      userMap := userMap + [(u, syms)];
      allSymbols := allSymbols + set k | 0 <= k < |syms| :: syms[k];
    }
    assert enabled[..|enabled|] == enabled;
  }

  lemma UnionSnoc(m: seq<(UserRow, seq<string>)>, p: (UserRow, seq<string>))
    ensures AllSymbols(ListsOf(m + [p])) == AllSymbols(ListsOf(m)) + set k | 0 <= k < |p.1| :: p.1[k]
  {
    assert ListsOf(m + [p]) == ListsOf(m) + [p.1];
    assert (ListsOf(m) + [p.1])[..|m|] == ListsOf(m);
  }

  /** The last loop of a run: one mail per user with at least one signal, in `user_map` order. */
  method NotifyAll(userMap: seq<(UserRow, seq<string>)>, cache: map<string, Bars>,
                   timestamp: string, lookup: string -> NameInfo, outbox: Outbox)
    requires Parsed(userMap) && CacheWellFormed(cache)
    modifies outbox
    ensures outbox.sent == old(outbox.sent) + Mails(userMap, cache, timestamp, lookup)
  {
    for i := 0 to |userMap|
      invariant outbox.sent == old(outbox.sent) + Mails(userMap[..i], cache, timestamp, lookup)
    {
      MailsSnoc(userMap, i, cache, timestamp, lookup);
      NotifyUser(userMap[i].0, userMap[i].1, cache, timestamp, lookup, outbox);
    }
    assert userMap[..|userMap|] == userMap;
  }

  lemma MailsSnoc(userMap: seq<(UserRow, seq<string>)>, i: nat, cache: map<string, Bars>,
                  timestamp: string, lookup: string -> NameInfo)
    requires Parsed(userMap) && CacheWellFormed(cache) && i < |userMap|
    ensures Mails(userMap[..i + 1], cache, timestamp, lookup) ==
              Mails(userMap[..i], cache, timestamp, lookup) +
              MailsOf(userMap[i].0, userMap[i].1, cache, timestamp, lookup)
  {
    assert userMap[..i + 1][..i] == userMap[..i];
  }

  /** One user's turn: their results and, when there are any, their mail. */
  method NotifyUser(user: UserRow, symbols: seq<string>, cache: map<string, Bars>,
                    timestamp: string, lookup: string -> NameInfo, outbox: Outbox)
    requires NonBlank(symbols) && CacheWellFormed(cache)
    modifies outbox
    ensures outbox.sent == old(outbox.sent) +
              MailsOf(user, symbols, cache, timestamp, lookup)
  {
    var results := CollectResults(symbols, cache);
    if results != [] {
      var body := FormatEmailBody(results, timestamp, lookup);
      outbox.Send(user.email, Subject, body);
    }
  }

  /** A user is mailed exactly when one of their symbols has a cached frame that signals. */
  lemma MailIff(u: UserRow, syms: seq<string>, cache: map<string, Bars>, timestamp: string, lookup: string -> NameInfo)
    requires NonBlank(syms) && CacheWellFormed(cache)
    ensures MailFor(u, syms, cache, timestamp, lookup).Some? <==> AnyFires(syms, cache)
  {
    UserSignalsNonEmpty(syms, cache);
  }

  /** The address of every mail, in sending order. */
  function Addressees(ms: seq<Mail>): (to: seq<Option<string>>)
    ensures |to| == |ms|
  {
    seq(|ms|, k requires 0 <= k < |ms| => ms[k].to)
  }

  lemma AddresseesAppend(a: seq<Mail>, b: seq<Mail>)
    ensures Addressees(a + b) == Addressees(a) + Addressees(b)
  {
    assert forall k :: 0 <= k < |a| ==> (a + b)[k] == a[k];
    assert forall k :: 0 <= k < |b| ==> (a + b)[|a| + k] == b[k];
  }

  /**
   * Who should hear from a run: in table order, the address of every user
   * with notifications on and at least one symbol of their stored list that
   * signals on the cached frames.
   */
  function Recipients(users: seq<UserRow>, cache: map<string, Bars>): seq<Option<string>>
    requires ListsPresent(users) && CacheWellFormed(cache)
    decreases |users|
  {
    if users == [] then []
    else
      var n := |users|;
      var u := users[n - 1];
      assert ListsPresent(users[..n - 1]) by {
        forall v | v in users[..n - 1] && v.notifyEnabled ensures v.symbols.Some? {
          assert v in users;
        }
      }
      Recipients(users[..n - 1], cache) +
        if u.notifyEnabled && AnyFires(ParseSymbols(u.symbols.value), cache) then [u.email] else []
  }

  /** A run mails exactly the signalling users with notifications on, once each, in table order. */
  lemma {:induction false} MailsReachRecipients(users: seq<UserRow>, cache: map<string, Bars>,
                                                timestamp: string, lookup: string -> NameInfo)
    requires ListsPresent(users) && CacheWellFormed(cache)
    ensures Addressees(Mails(UserMap(Enabled(users)), cache, timestamp, lookup)) == Recipients(users, cache)
    decreases |users|
  {
    if users == [] {
      assert Mails(UserMap(Enabled(users)), cache, timestamp, lookup) == [];
    } else {
      var n := |users|;
      var init, u := users[..n - 1], users[n - 1];
      assert users == init + [u];
      assert ListsPresent(init) by {
        forall v | v in init && v.notifyEnabled ensures v.symbols.Some? {
          assert v in users;
        }
      }
      MailsReachRecipients(init, cache, timestamp, lookup);
      ReachStep(init, u, cache, timestamp, lookup);
    }
  }

  /** The inductive step of `MailsReachRecipients`: one more row of the table. */
  lemma ReachStep(init: seq<UserRow>, u: UserRow, cache: map<string, Bars>,
                  timestamp: string, lookup: string -> NameInfo)
    requires ListsPresent(init + [u]) && ListsPresent(init) && CacheWellFormed(cache)
    requires Addressees(Mails(UserMap(Enabled(init)), cache, timestamp, lookup)) == Recipients(init, cache)
    ensures Addressees(Mails(UserMap(Enabled(init + [u])), cache, timestamp, lookup)) == Recipients(init + [u], cache)
  {
    var users := init + [u];
    assert users[..|users| - 1] == init;
    var e := Enabled(init);
    if u.notifyEnabled {
      assert u in users;
      var syms := ParseSymbols(u.symbols.value);
      assert Enabled(users) == e + [u];
      assert Recipients(users, cache) ==
               Recipients(init, cache) + if AnyFires(syms, cache) then [u.email] else [];
      ReachStepEnabled(e, u, cache, timestamp, lookup);
    } else {
      assert Enabled(users) == e;
      assert Recipients(users, cache) == Recipients(init, cache);
    }
  }

  /** One more enabled user adds their address exactly when one of their symbols signals. */
  lemma ReachStepEnabled(e: seq<UserRow>, u: UserRow, cache: map<string, Bars>,
                         timestamp: string, lookup: string -> NameInfo)
    requires forall k :: 0 <= k < |e| ==> e[k].symbols.Some?
    requires u.symbols.Some? && CacheWellFormed(cache)
    ensures Addressees(Mails(UserMap(e + [u]), cache, timestamp, lookup)) ==
              Addressees(Mails(UserMap(e), cache, timestamp, lookup)) +
              if AnyFires(ParseSymbols(u.symbols.value), cache) then [u.email] else []
  {
    var syms := ParseSymbols(u.symbols.value);
    MailsOfUserMapSnoc(e, u, cache, timestamp, lookup);
    AddresseeOf(u, syms, cache, timestamp, lookup);
    AddresseesAppend(Mails(UserMap(e), cache, timestamp, lookup), MailsOf(u, syms, cache, timestamp, lookup));
  }

  /** A user's mails are addressed to them, and there is one exactly when a symbol signals. */
  lemma AddresseeOf(u: UserRow, syms: seq<string>, cache: map<string, Bars>,
                    timestamp: string, lookup: string -> NameInfo)
    requires NonBlank(syms) && CacheWellFormed(cache)
    ensures Addressees(MailsOf(u, syms, cache, timestamp, lookup)) ==
              if AnyFires(syms, cache) then [u.email] else []
  {
    MailIff(u, syms, cache, timestamp, lookup);
  }

  /** One more enabled user adds that user's mail, if any, after the others. */
  lemma MailsOfUserMapSnoc(e: seq<UserRow>, u: UserRow, cache: map<string, Bars>,
                           timestamp: string, lookup: string -> NameInfo)
    requires forall k :: 0 <= k < |e| ==> e[k].symbols.Some?
    requires u.symbols.Some? && CacheWellFormed(cache)
    ensures Mails(UserMap(e + [u]), cache, timestamp, lookup) ==
              Mails(UserMap(e), cache, timestamp, lookup) +
              MailsOf(u, ParseSymbols(u.symbols.value), cache, timestamp, lookup)
  {
    var m := UserMap(e + [u]);
    assert (e + [u])[..|e|] == e;
    assert m[..|m| - 1] == UserMap(e);
  }

  /**
   * The per-user lookup uses the fetch set's suffix rule: a symbol of a
   * `user_map` entry finds a cached frame exactly when it is digit- or
   * letter-leading and its ticker's download gave a non-empty frame.
   */
  lemma LookupHit(users: seq<UserRow>, download: string -> Download, u: nat, sym: string)
    requires ListsPresent(users)
    requires u < |Enabled(users)|
    requires sym in UserMap(Enabled(users))[u].1
    ensures sym != ""
    ensures FetchName(sym) in CacheOf(Targets(users), download) <==>
              Fetchable(sym) && Succeeds(download(FetchName(sym)))
  {
    var m := UserMap(Enabled(users));
    UnionNonBlank(m);
    assert sym in ListsOf(m)[u];
  }

  /** The bot does not deduplicate or change case: a repeated symbol is looked up twice. */
  lemma ParseKeepsRepeats()
    ensures ParseSymbols("7203\naapl\n7203") == ["7203", "aapl", "7203"]
  {
    var xs := ["7203", "aapl", "7203"];
    assert JoinLines(xs[2..]) == "7203";
    assert JoinLines(xs[1..]) == "aapl\n7203";
    assert JoinLines(xs) == "7203\naapl\n7203";
    ParseOfJoined(xs);
  }
}
