/**
 * The report ledger of the status bot: the set of display names that reported
 * in the current cycle, the ignore policy that keeps names out of it, the
 * replay of the day's history on start-up, and the daily summary that drains
 * the ledger and reconciles it against the channel roster.
 *
 * The chat platform is outside the model. Resolving a user ID to a display
 * name (`GetUserInfo`) is a function `lookup` that yields None when the lookup
 * fails; the day's history, the channel roster and the current date are
 * inputs; the message to post is an output.
 */
module Status {
  import opened Wrappers
  import Util
  import Calendar

  /** A channel message as events and history carry it: the sender's ID and the text. */
  datatype Message = Message(user: string, text: string)

  /** One titled field of the posted summary. */
  datatype Field = Field(title: string, value: string)

  const NoReportsText := "No one reported status"
  const DateTitle := "Date"
  const ReportedTitle := "Team members that reported status"
  const NotReportedTitle := "Team members that didn't report status"

  /** `b.ignored[user]`: a name missing from the map reads as false. */
  predicate IsIgnored(ignored: map<string, bool>, name: string)
    ensures IsIgnored(ignored, name) ==> name in ignored
  {
    name in ignored && ignored[name]
  }

  predicate NoDuplicates(s: seq<string>) {
    forall i, j :: 0 <= i < j < |s| ==> s[i] != s[j]
  }

  // ---- the ledger as a value ----

  /** The ledger after `reportUserStatus(name)`. */
  function Recorded(reports: set<string>, ignored: map<string, bool>, name: string): (r: set<string>)
    ensures reports <= r <= reports + {name}
    ensures name in r <==> name in reports || !IsIgnored(ignored, name)
  {
    if IsIgnored(ignored, name) then reports else reports + {name}
  }

  /**
   * The outcome of the `GetUserInfo` call that `backfillData` makes for the
   * `i`-th history message: the display name, or None when that call fails.
   * Keyed by position, so two messages of one sender may resolve differently.
   */
  function ResolveAt(lookup: (nat, string) -> Option<string>, i: nat, m: Message): Option<string> {
    lookup(i, Util.GetUserFromMessage(m.user, m.text))
  }

  /** The ledger after `handleUserStatusUpdate`, given its lookup's outcome; a failed lookup skips it. */
  function Handled(reports: set<string>, ignored: map<string, bool>, resolved: Option<string>): (r: set<string>)
    ensures reports <= r
    ensures resolved.None? ==> r == reports
    ensures resolved.Some? ==> r <= reports + {resolved.value}
  {
    match resolved
    case None => reports
    case Some(name) => Recorded(reports, ignored, name)
  }

  /** The ledger after handling the messages one after another, in order. */
  function Replayed(reports: set<string>, ignored: map<string, bool>, lookup: (nat, string) -> Option<string>, msgs: seq<Message>): (r: set<string>)
    ensures reports <= r
    decreases |msgs|
  {
    if |msgs| == 0 then reports
    else
      var n := |msgs| - 1;
      Handled(Replayed(reports, ignored, lookup, msgs[..n]), ignored, ResolveAt(lookup, n, msgs[n]))
  }

  /** The lookups of a later batch, renumbered to start at position `k`. */
  function Shift(lookup: (nat, string) -> Option<string>, k: nat): (nat, string) -> Option<string> {
    (i: nat, u: string) => lookup(i + k, u)
  }

  /** A name that reports stays recorded, and an ignored name is never recorded. */
  lemma RecordedSpec(reports: set<string>, ignored: map<string, bool>, name: string, other: string)
    ensures other in Recorded(reports, ignored, name) <==> other in reports || (other == name && !IsIgnored(ignored, name))
  {
  }

  /** Reporting the same name twice has the effect of reporting it once. */
  lemma RecordedIdempotent(reports: set<string>, ignored: map<string, bool>, name: string)
    ensures Recorded(Recorded(reports, ignored, name), ignored, name) == Recorded(reports, ignored, name)
  {
  }

  /** The order of two reports does not matter. */
  lemma RecordedCommutes(reports: set<string>, ignored: map<string, bool>, a: string, b: string)
    ensures Recorded(Recorded(reports, ignored, a), ignored, b) == Recorded(Recorded(reports, ignored, b), ignored, a)
  {
  }

  /** Replaying two batches one after the other is replaying their concatenation. */
  lemma {:induction false} ReplayedAppend(reports: set<string>, ignored: map<string, bool>, lookup: (nat, string) -> Option<string>, a: seq<Message>, b: seq<Message>)
    ensures Replayed(reports, ignored, lookup, a + b) == Replayed(Replayed(reports, ignored, lookup, a), ignored, Shift(lookup, |a|), b)
    decreases |b|
  {
    if |b| == 0 {
      assert a + b == a;
    } else {
      var ab := a + b;
      assert ab[..|ab| - 1] == a + b[..|b| - 1];
      assert ab[|ab| - 1] == b[|b| - 1];
      assert ResolveAt(lookup, |ab| - 1, ab[|ab| - 1]) == ResolveAt(Shift(lookup, |a|), |b| - 1, b[|b| - 1]);
      ReplayedAppend(reports, ignored, lookup, a, b[..|b| - 1]);
    }
  }

  /**
   * After a replay the ledger holds exactly the names it held before and the
   * non-ignored names of the messages whose lookup succeeded; a failed lookup
   * skips only its own message.
   */
  lemma {:induction false} ReplayedMembership(reports: set<string>, ignored: map<string, bool>, lookup: (nat, string) -> Option<string>, msgs: seq<Message>, x: string)
    ensures x in Replayed(reports, ignored, lookup, msgs) <==>
      x in reports || (!IsIgnored(ignored, x) && exists i :: 0 <= i < |msgs| && ResolveAt(lookup, i, msgs[i]) == Some(x))
    decreases |msgs|
  {
    if |msgs| > 0 {
      var n := |msgs| - 1;
      var init := msgs[..n];
      ReplayedMembership(reports, ignored, lookup, init, x);
      if exists i :: 0 <= i < |msgs| && ResolveAt(lookup, i, msgs[i]) == Some(x) {
        var i :| 0 <= i < |msgs| && ResolveAt(lookup, i, msgs[i]) == Some(x);
        if i < n {
          assert init[i] == msgs[i];
        }
      }
      if exists i :: 0 <= i < |init| && ResolveAt(lookup, i, init[i]) == Some(x) {
        var i :| 0 <= i < |init| && ResolveAt(lookup, i, init[i]) == Some(x);
        assert msgs[i] == init[i];
      }
    }
  }

  // ---- the summary ----

  /** The reported field: the joined snapshot, or the fixed text when nobody reported. */
  function ReportedField(snapshot: seq<string>): (r: string)
    ensures |snapshot| == 0 ==> r == NoReportsText
    ensures |snapshot| > 0 ==> r <= Util.Join(snapshot, ", ")
  {
    if |snapshot| > 0 then Util.ConnectValues(snapshot) else NoReportsText
  }

  /** The three fields of the posted summary, in their posted order. */
  function SummaryFields(today: Calendar.Date, snapshot: seq<string>, channelUsers: seq<string>): (r: seq<Field>)
    ensures |r| == 3 && r[0] == Field(DateTitle, Calendar.FormatDate(today))
    ensures r[1].title == ReportedTitle && r[2].title == NotReportedTitle
  {
    [ Field(DateTitle, Calendar.FormatDate(today)),
      Field(ReportedTitle, ReportedField(snapshot)),
      Field(NotReportedTitle, Util.ConnectValues(Util.Unreported(channelUsers, Util.Elems(snapshot)))) ]
  }

  /**
   * Every roster member is accounted for: either in the snapshot or listed as
   * not reported, never both; and only roster members are listed.
   */
  lemma SummaryAccountsForRoster(snapshot: seq<string>, channelUsers: seq<string>, x: string)
    ensures var missing := Util.Unreported(channelUsers, Util.Elems(snapshot));
      (x in channelUsers ==> (x in snapshot <==> x !in missing)) && (x in missing ==> x in channelUsers)
  {
    Util.UnreportedMembership(channelUsers, Util.Elems(snapshot), x);
  }

  /**
   * Over a day whose ledger was built by replaying `msgs`, a roster member is
   * listed as not reported exactly when no message resolved to their name or
   * their name is ignored: the roster itself is not filtered by the ignore list.
   */
  lemma NotReportedAfterReplay(ignored: map<string, bool>, lookup: (nat, string) -> Option<string>, msgs: seq<Message>, snapshot: seq<string>, channelUsers: seq<string>, x: string)
    requires Util.Elems(snapshot) == Replayed({}, ignored, lookup, msgs)
    ensures x in Util.Unreported(channelUsers, Util.Elems(snapshot)) <==>
      x in channelUsers && (IsIgnored(ignored, x) || forall i :: 0 <= i < |msgs| ==> ResolveAt(lookup, i, msgs[i]) != Some(x))
  {
    Util.UnreportedMembership(channelUsers, Util.Elems(snapshot), x);
    ReplayedMembership({}, ignored, lookup, msgs, x);
  }

  /**
   * The bot's state: the ledger of names that reported in the current cycle,
   * and the ignore list fixed at construction.
   */
  class StatusBot {
    var reports: set<string>
    const ignored: map<string, bool>

    /** No ignored name is ever recorded. */
    ghost predicate Valid()
      reads this
    {
      forall name :: name in reports ==> !IsIgnored(ignored, name)
    }

    /**
     * `NewStatusBot`: an empty ledger, then the backfill. A failed history
     * fetch leaves the ledger empty and construction goes on.
     */
    constructor (ignored: map<string, bool>, history: Option<seq<Message>>, lookup: (nat, string) -> Option<string>)
      ensures Valid() && this.ignored == ignored
      ensures reports == if history.Some? then Replayed({}, ignored, lookup, history.value) else {}
    {
      this.ignored := ignored;
      reports := {};
      new;
      var ok := BackfillData(history, lookup);
    }

    /** `reportUserStatus`: record the name unless it is ignored. */
    method ReportUserStatus(user: string)
      requires Valid()
      modifies this
      ensures Valid()
      ensures reports == Recorded(old(reports), ignored, user)
    {
      if IsIgnored(ignored, user) {
        return;
      }
      reports := reports + {user};
    }

    /**
     * `getReportedUsers`: every recorded name exactly once, in an unspecified
     * order, and the ledger starts over empty.
     */
    method GetReportedUsers() returns (users: seq<string>)
      modifies this
      ensures Util.Elems(users) == old(reports) && NoDuplicates(users)
      ensures |users| == |old(reports)|
      ensures reports == {} && Valid()
    {
      users := [];
      var rest := reports;
      while rest != {}
        invariant Util.Elems(users) + rest == reports
        invariant Util.Elems(users) !! rest
        invariant NoDuplicates(users)
        invariant |users| + |rest| == |reports|
        decreases |rest|
      {
        var user :| user in rest;
        users := users + [user];
        rest := rest - {user};
      }
      reports := {};
    }

    /**
     * `handleUserStatusUpdate`: resolve the identity, look up its display
     * name, report it. `lookup` gives the outcome of this one call.
     */
    method HandleUserStatusUpdate(user: string, text: string, lookup: string -> Option<string>)
      requires Valid()
      modifies this
      ensures Valid()
      ensures reports == Handled(old(reports), ignored, lookup(Util.GetUserFromMessage(user, text)))
    {
      var u := Util.GetUserFromMessage(user, text);
      var usr := lookup(u);
      if usr.None? {
        return;
      }
      ReportUserStatus(usr.value);
    }

    /**
     * `backfillData`: replay the fetched history in order; when the fetch
     * fails, report it and leave the ledger as it was.
     */
    method BackfillData(history: Option<seq<Message>>, lookup: (nat, string) -> Option<string>) returns (ok: bool)
      requires Valid()
      modifies this
      ensures Valid()
      ensures ok == history.Some?
      ensures reports == if history.Some? then Replayed(old(reports), ignored, lookup, history.value) else old(reports)
    {
      if history.None? {
        return false;
      }
      var msgs := history.value;
      for i := 0 to |msgs|
        invariant Valid()
        invariant reports == Replayed(old(reports), ignored, lookup, msgs[..i])
      {
        assert msgs[..i + 1][..i] == msgs[..i];
        HandleUserStatusUpdate(msgs[i].user, msgs[i].text, (u: string) => lookup(i, u));
      }
      assert msgs[..|msgs|] == msgs;
      return true;
    }

    /**
     * `sendSummaryMessage`: drain the ledger, then build the summary from the
     * snapshot and the roster; on a weekend nothing is posted, but the ledger
     * is drained all the same.
     */
    method SendSummaryMessage(channelUsers: seq<string>, now: Calendar.Date) returns (ghost snapshot: seq<string>, posted: Option<seq<Field>>)
      requires Valid() && Calendar.ValidDate(now)
      modifies this
      ensures Valid() && reports == {}
      ensures Util.Elems(snapshot) == old(reports) && NoDuplicates(snapshot)
      ensures posted == if Util.IsWeekend(now) then None else Some(SummaryFields(now, snapshot, channelUsers))
    {
      var reported := GetReportedUsers();
      snapshot := reported;
      var reportedUsers := "";
      if |reported| > 0 {
        reportedUsers := Util.ConnectValues(reported);
      } else {
        reportedUsers := NoReportsText;
      }
      var notReported := Util.NotReportedUsers(reported, channelUsers);
      var notReportedUsers := Util.ConnectValues(notReported);
      if !Util.IsWeekend(now) {
        posted := Some([
          Field(DateTitle, Calendar.FormatDate(now)),
          Field(ReportedTitle, reportedUsers),
          Field(NotReportedTitle, notReportedUsers)
        ]);
      } else {
        posted := None;
      }
    }
  }

  /** An element of a sequence without duplicates occurs in it exactly once. */
  lemma {:induction false} OnceInDistinct(s: seq<string>, x: string)
    requires NoDuplicates(s) && x in s
    ensures multiset(s)[x] == 1
  {
    var n := |s| - 1;
    assert s == s[..n] + [s[n]];
    if s[n] == x {
      assert x !in s[..n];
    } else {
      OnceInDistinct(s[..n], x);
    }
  }

  /**
   * A cycle as a caller sees it: a name reported twice appears exactly once in
   * the snapshot, and a second snapshot right after is empty.
   */
  method ReportThenDrain(bot: StatusBot, name: string) returns (first: seq<string>, second: seq<string>)
    requires bot.Valid() && !IsIgnored(bot.ignored, name)
    modifies bot
    ensures multiset(first)[name] == 1 && Util.Elems(first) == old(bot.reports) + {name}
    ensures second == []
  {
    bot.ReportUserStatus(name);
    bot.ReportUserStatus(name);
    first := bot.GetReportedUsers();
    second := bot.GetReportedUsers();
    assert name in Util.Elems(first);
    OnceInDistinct(first, name);
  }
}
