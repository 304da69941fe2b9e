/**
 * The pure helpers of the status bot: joining names for display, reconciling
 * the reported names against the channel roster, extracting the reporting
 * identity from a message, parsing the ignore list and the weekend gate.
 *
 * A Go string is a sequence of bytes, and a string here is read as that
 * sequence, one element per byte (IsByteString), and is never decoded. A
 * multi-byte UTF-8 character is therefore several elements, and every index,
 * length and slice counts bytes exactly as Go's do. Nothing requires the
 * reading: every lemma holds of all sequences, byte strings among them.
 */
module Util {
  import Calendar

  /** A Go string held one byte per character. */
  predicate IsByteString(s: string) {
    forall i :: 0 <= i < |s| ==> s[i] as int < 256
  }

  /** The set of elements of a sequence. */
  function Elems(s: seq<string>): set<string> {
    set x | x in s
  }

  // ---- ConnectValues ----

  /** Go's `strings.Join`: the elements of `values` with `sep` between neighbours. */
  function Join(values: seq<string>, sep: string): (r: string)
    ensures |values| > 0 ==> values[0] <= r
  {
    if |values| == 0 then ""
    else if |values| == 1 then values[0]
    else values[0] + sep + Join(values[1..], sep)
  }

  /** The characters of the cutset ", " given to `strings.TrimRight`. */
  const Separators: set<char> := {',', ' '}

  /**
   * Go's `strings.TrimRight(s, cutset)`: the longest prefix of `s` that does
   * not end in a cutset character; everything removed is cutset characters.
   */
  function TrimRight(s: string, cutset: set<char>): (r: string)
    ensures r <= s
    ensures r == [] || r[|r| - 1] !in cutset
    ensures forall i :: |r| <= i < |s| ==> s[i] in cutset
  {
    if |s| > 0 && s[|s| - 1] in cutset then TrimRight(s[..|s| - 1], cutset) else s
  }

  /**
   * `ConnectValues`: the values joined with ", ", then every trailing ',' and
   * ' ' removed, including any that belonged to the last values themselves.
   */
  function ConnectValues(values: seq<string>): (r: string)
    ensures r <= Join(values, ", ")
    ensures r == [] || r[|r| - 1] !in Separators
    ensures forall i :: |r| <= i < |Join(values, ", ")| ==> Join(values, ", ")[i] in Separators
  {
    TrimRight(Join(values, ", "), Separators)
  }

  /** The joined string ends with the last value. */
  lemma {:induction false} JoinEndsWithLast(values: seq<string>, sep: string)
    requires |values| > 0
    ensures var j, last := Join(values, sep), values[|values| - 1];
      |last| <= |j| && j[|j| - |last|..] == last
  {
    if |values| > 1 {
      JoinEndsWithLast(values[1..], sep);
      var rest := Join(values[1..], sep);
      assert Join(values, sep) == values[0] + sep + rest;
    }
  }

  /**
   * When the last value is non-empty and does not itself end in ',' or ' ',
   * the trim removes nothing: the result is exactly the ", "-joined values.
   */
  lemma ConnectValuesKeepsJoin(values: seq<string>)
    requires |values| > 0
    requires var last := values[|values| - 1]; |last| > 0 && last[|last| - 1] !in Separators
    ensures ConnectValues(values) == Join(values, ", ")
  {
    JoinEndsWithLast(values, ", ");
    var j, last := Join(values, ", "), values[|values| - 1];
    assert j[|j| - 1] == last[|last| - 1];
  }

  lemma ConnectValuesEmpty()
    ensures ConnectValues([]) == ""
  {
  }

  /** The example of the test suite. */
  lemma ConnectValuesExample()
    ensures ConnectValues(["abc 123", "xyz 345", "ghy 23"]) == "abc 123, xyz 345, ghy 23"
  {
    ConnectValuesKeepsJoin(["abc 123", "xyz 345", "ghy 23"]);
    assert Join(["ghy 23"], ", ") == "ghy 23";
    assert Join(["xyz 345", "ghy 23"], ", ") == "xyz 345, ghy 23";
  }

  // ---- NotReportedUsers ----

  /**
   * The roster reconciliation: the names of `present` that are not in
   * `reported`, in the order of `present`.
   */
  function Unreported(present: seq<string>, reported: set<string>): (r: seq<string>)
    ensures |r| <= |present|
  {
    if |present| == 0 then []
    else
      var init := Unreported(present[..|present| - 1], reported);
      var x := present[|present| - 1];
      if x in reported then init else init + [x]
  }

  /** `a` can be obtained from `b` by deleting elements. */
  predicate IsSubsequence(a: seq<string>, b: seq<string>) {
    if |a| == 0 then true
    else if |b| == 0 then false
    else if a[|a| - 1] == b[|b| - 1] then IsSubsequence(a[..|a| - 1], b[..|b| - 1])
    else IsSubsequence(a, b[..|b| - 1])
  }

  lemma {:induction false} SubsequenceOfLonger(a: seq<string>, b: seq<string>, x: string)
    requires IsSubsequence(a, b)
    ensures IsSubsequence(a, b + [x])
    decreases |a| + |b|, 1
  {
    if |a| > 0 && |b| > 0 {
      var bx := b + [x];
      assert bx[..|bx| - 1] == b;
      if a[|a| - 1] == x {
        assert (b + [x])[..|b|] == b;
        SubsequenceShorter(a, b);
      }
    } else if |a| > 0 {
      assert false;
    }
  }

  /** Dropping the last element of a subsequence keeps it a subsequence. */
  lemma {:induction false} SubsequenceShorter(a: seq<string>, b: seq<string>)
    requires |a| > 0 && IsSubsequence(a, b)
    ensures IsSubsequence(a[..|a| - 1], b)
    decreases |a| + |b|, 0
  {
    var a0 := a[..|a| - 1];
    var b0 := b[..|b| - 1];
    if a[|a| - 1] == b[|b| - 1] {
      SubsequenceOfLonger(a0, b0, b[|b| - 1]);
      assert b0 + [b[|b| - 1]] == b;
    } else {
      SubsequenceShorter(a, b0);
      SubsequenceOfLonger(a0, b0, b[|b| - 1]);
      assert b0 + [b[|b| - 1]] == b;
    }
  }

  lemma {:induction false} SubsequenceLength(a: seq<string>, b: seq<string>)
    requires IsSubsequence(a, b)
    ensures |a| <= |b|
  {
    if |a| > 0 {
      if a[|a| - 1] == b[|b| - 1] {
        SubsequenceLength(a[..|a| - 1], b[..|b| - 1]);
      } else {
        SubsequenceLength(a, b[..|b| - 1]);
      }
    }
  }

  /** A name is not reported exactly when it is present and did not report. */
  lemma {:induction false} UnreportedMembership(present: seq<string>, reported: set<string>, x: string)
    ensures x in Unreported(present, reported) <==> x in present && x !in reported
  {
    if |present| > 0 {
      var init := present[..|present| - 1];
      UnreportedMembership(init, reported, x);
      assert present == init + [present[|present| - 1]];
    }
  }

  /** Each present name that did not report keeps its multiplicity; reported ones vanish. */
  lemma {:induction false} UnreportedMultiplicity(present: seq<string>, reported: set<string>, x: string)
    ensures multiset(Unreported(present, reported))[x] == if x in reported then 0 else multiset(present)[x]
  {
    if |present| > 0 {
      var init := present[..|present| - 1];
      UnreportedMultiplicity(init, reported, x);
      assert present == init + [present[|present| - 1]];
    }
  }

  /** The result keeps the roster's order: it is a subsequence of it, hence no longer. */
  lemma {:induction false} UnreportedOrder(present: seq<string>, reported: set<string>)
    ensures IsSubsequence(Unreported(present, reported), present)
    ensures |Unreported(present, reported)| <= |present|
  {
    if |present| > 0 {
      var init := present[..|present| - 1];
      var x := present[|present| - 1];
      UnreportedOrder(init, reported);
      var u := Unreported(init, reported);
      if x in reported {
        SubsequenceOfLonger(u, init, x);
      } else {
        var ux := u + [x];
        assert ux[..|ux| - 1] == u;
      }
      assert init + [x] == present;
    }
    SubsequenceLength(Unreported(present, reported), present);
  }

  /**
   * `NotReportedUsers`: first the reported names go into a lookup map, then
   * the roster is filtered through it.
   */
  method NotReportedUsers(reported: seq<string>, present: seq<string>) returns (notReported: seq<string>)
    ensures notReported == Unreported(present, Elems(reported))
    ensures forall x :: x in notReported <==> x in present && x !in reported
  {
    var reportedUsers: map<string, bool> := map[];
    for i := 0 to |reported|
      invariant reportedUsers.Keys == Elems(reported[..i])
      invariant forall u :: u in reportedUsers ==> reportedUsers[u]
    {
      assert reported[..i + 1] == reported[..i] + [reported[i]];
      reportedUsers := reportedUsers[reported[i] := true];
    }
    assert reported[..|reported|] == reported;

    notReported := [];
    for i := 0 to |present|
      invariant notReported == Unreported(present[..i], Elems(reported))
    {
      var user := present[i];
      var p := user in reportedUsers && reportedUsers[user];
      assert present[..i + 1][..i] == present[..i];
      if !p {
        notReported := notReported + [user];
      }
    }
    assert present[..|present|] == present;
    forall x ensures x in notReported <==> x in present && x !in reported {
      UnreportedMembership(present, Elems(reported), x);
    }
  }

  /** The example of the test suite. */
  method NotReportedUsersExample() returns (notReported: seq<string>)
    ensures notReported == ["kjl", "xxd123"]
  {
    notReported := NotReportedUsers(["abc 123", "xyz 345", "ghy 23"], ["abc 123", "kjl", "xyz 345", "ghy 23", "xxd123"]);
    var present := ["abc 123", "kjl", "xyz 345", "ghy 23", "xxd123"];
    var reported := Elems(["abc 123", "xyz 345", "ghy 23"]);
    assert "abc 123" in reported && "xyz 345" in reported && "ghy 23" in reported;
    assert "kjl" !in reported && "xxd123" !in reported;
    assert present[..1] == ["abc 123"];
    assert present[..2] == present[..1] + ["kjl"];
    assert present[..3] == present[..2] + ["xyz 345"];
    assert present[..4] == present[..3] + ["ghy 23"];
    assert present[..5] == present[..4] + ["xxd123"];
    assert Unreported(present[..1], reported) == [];
    assert Unreported(present[..2], reported) == ["kjl"];
    assert Unreported(present[..3], reported) == ["kjl"];
    assert Unreported(present[..4], reported) == ["kjl"];
    assert present[..5] == present;
  }

  // ---- GetUserFromMessage ----

  /**
   * Go's `strings.IndexAny(s, chars)`: the first index holding any of the
   * characters, or -1 when none occurs.
   */
  function IndexAny(s: string, chars: set<char>): (r: int)
    ensures -1 <= r < |s|
    ensures r == -1 <==> forall i :: 0 <= i < |s| ==> s[i] !in chars
    ensures r >= 0 ==> s[r] in chars && forall i :: 0 <= i < r ==> s[i] !in chars
  {
    if |s| == 0 then -1
    else if s[0] in chars then 0
    else
      var k := IndexAny(s[1..], chars);
      if k < 0 then -1 else k + 1
  }

  /** The characters of `strings.IndexAny(text, "<@")`: either one opens a mention. */
  const MentionStart: set<char> := {'<', '@'}

  /**
   * `GetUserFromMessage`: a non-empty sender is the identity; otherwise the
   * text between two characters past the first '<' or '@' (position -1 when
   * there is none) and the first '>', provided that span is non-empty.
   */
  function GetUserFromMessage(user: string, text: string): (r: string)
    ensures |user| > 0 ==> r == user
    ensures |user| == 0 ==> '>' !in r
    ensures |user| == 0 && '>' !in text ==> r == ""
  {
    if |user| > 0 then user
    else
      var start := IndexAny(text, MentionStart);
      var end := IndexAny(text, {'>'});
      if start + 2 < end then text[start + 2..end] else ""
  }

  /** The outcome with an empty sender, in terms of the two marker positions. */
  lemma MentionSpan(text: string, start: int, end: int)
    requires -1 <= start < |text| && 0 <= end < |text|
    requires start == -1 ==> forall i :: 0 <= i < |text| ==> text[i] !in MentionStart
    requires start >= 0 ==> text[start] in MentionStart && forall i :: 0 <= i < start ==> text[i] !in MentionStart
    requires text[end] == '>' && forall i :: 0 <= i < end ==> text[i] != '>'
    ensures GetUserFromMessage("", text) == if start + 2 < end then text[start + 2..end] else ""
  {
    var s, e := IndexAny(text, MentionStart), IndexAny(text, {'>'});
    assert s == start;
    assert e == end;
  }

  /**
   * With an empty sender, the identity is what lies between the character two
   * past the first '<' or '@' and the first '>'. For a "<@" mention token that
   * is the mentioned identity; since either marker character counts on its
   * own, after a lone '@' or '<' the character following it is dropped.
   */
  lemma ExtractsAfterMarker(prefix: string, marker: char, next: char, id: string, suffix: string)
    requires forall i :: 0 <= i < |prefix| ==> prefix[i] !in {'<', '@', '>'}
    requires marker in MentionStart && next != '>'
    requires |id| > 0 && forall i :: 0 <= i < |id| ==> id[i] != '>'
    ensures GetUserFromMessage("", prefix + [marker, next] + id + ">" + suffix) == id
  {
    var text := prefix + [marker, next] + id + ">" + suffix;
    var start, end := |prefix|, |prefix| + 2 + |id|;
    assert text[start] == marker && text[start + 1] == next;
    assert forall i :: 0 <= i < start ==> text[i] == prefix[i];
    assert forall i :: start + 2 <= i < end ==> text[i] == id[i - start - 2];
    assert text[end] == '>';
    MentionSpan(text, start, end);
    assert text[start + 2..end] == id;
  }

  /**
   * With no '<' or '@' anywhere, the start position is -1 and the identity is
   * whatever lies between index 1 and the first '>'.
   */
  lemma ExtractsWithoutMarker(first: char, body: string, suffix: string)
    requires var text := [first] + body + ">" + suffix;
      forall i :: 0 <= i < |text| ==> text[i] !in MentionStart
    requires first != '>' && forall i :: 0 <= i < |body| ==> body[i] != '>'
    ensures GetUserFromMessage("", [first] + body + ">" + suffix) == body
  {
    var text := [first] + body + ">" + suffix;
    var end := 1 + |body|;
    assert text[0] == first;
    assert forall i :: 1 <= i < end ==> text[i] == body[i - 1];
    assert text[end] == '>';
    MentionSpan(text, -1, end);
    assert text[1..end] == body;
  }

  /**
   * The offsets count bytes, as Go's do: "<ü>" is the bytes '<', 0xC3, 0xBC,
   * '>', so the byte after the marker is skipped and the result is the lone
   * byte 0xBC.
   */
  lemma ByteOffsetAfterMarker()
    ensures IsByteString(['<', '\U{C3}', '\U{BC}', '>'])
    ensures GetUserFromMessage("", ['<', '\U{C3}', '\U{BC}', '>']) == ['\U{BC}']
  {
    var text := ['<', '\U{C3}', '\U{BC}', '>'];
    assert text[2..3] == ['\U{BC}'];
    MentionSpan(text, 0, 3);
  }

  /**
   * With no marker the span starts at byte 1: "éllo>" starts with the bytes
   * 0xC3, 0xA9, so the result begins with the stray byte 0xA9.
   */
  lemma ByteOffsetWithoutMarker()
    ensures IsByteString(['\U{C3}', '\U{A9}', 'l', 'l', 'o', '>'])
    ensures GetUserFromMessage("", ['\U{C3}', '\U{A9}', 'l', 'l', 'o', '>']) == ['\U{A9}', 'l', 'l', 'o']
  {
    var text := ['\U{C3}', '\U{A9}', 'l', 'l', 'o', '>'];
    assert text[1..5] == ['\U{A9}', 'l', 'l', 'o'];
    MentionSpan(text, -1, 5);
  }

  /** The mention case of the test suite. */
  lemma GetUserFromMentionExample()
    ensures GetUserFromMessage("", "Submission from <@U01J9JZQZ8G>") == "U01J9JZQZ8G"
  {
    var text := "Submission from <@U01J9JZQZ8G>";
    assert text[18..29] == "U01J9JZQZ8G";
    assert text[16] == '<' && text[29] == '>';
    assert forall i :: 0 <= i < 16 ==> text[i] !in MentionStart;
    assert forall i :: 0 <= i < 29 ==> text[i] != '>';
    MentionSpan(text, 16, 29);
  }

  /** The other two cases of the test suite. */
  lemma GetUserFromMessageExamples()
    ensures GetUserFromMessage("U01J9JZQZ8G", "Submission from test") == "U01J9JZQZ8G"
    ensures GetUserFromMessage("", "Submission from someone") == ""
  {
    var t := "Submission from someone";
    assert forall i :: 0 <= i < |t| ==> t[i] != '>';
  }

  // ---- ReadIgnored ----

  /**
   * Go's `strings.Split(s, ",")` for a one-character separator: the pieces
   * between separators, one more than there are separators ("" gives [""]).
   */
  function Split(s: string, sep: char): (pieces: seq<string>)
    ensures |pieces| > 0
    ensures forall k :: 0 <= k < |pieces| ==> sep !in pieces[k]
  {
    if |s| == 0 then [""]
    else
      var rest := Split(s[1..], sep);
      if s[0] == sep then [""] + rest
      else [[s[0]] + rest[0]] + rest[1..]
  }

  /** Splitting loses nothing: joining the pieces with the separator restores the string. */
  lemma {:induction false} JoinSplit(s: string, sep: char)
    ensures Join(Split(s, sep), [sep]) == s
  {
    if |s| > 0 {
      var rest := Split(s[1..], sep);
      JoinSplit(s[1..], sep);
      if s[0] == sep {
        assert ([""] + rest)[1..] == rest;
      } else {
        var pieces := [[s[0]] + rest[0]] + rest[1..];
        if |rest| > 1 {
          assert pieces[1..] == rest[1..];
          assert Join(rest, [sep]) == rest[0] + [sep] + Join(rest[1..], [sep]);
        }
      }
      assert s == [s[0]] + s[1..];
    }
  }

  /**
   * `ReadIgnored`: every comma-separated piece of the configuration string,
   * untrimmed, maps to true.
   */
  method ReadIgnored(ignored: string) returns (ignoredUsers: map<string, bool>)
    ensures ignoredUsers.Keys == Elems(Split(ignored, ','))
    ensures forall u :: u in ignoredUsers ==> ignoredUsers[u] && ',' !in u
  {
    ignoredUsers := map[];
    var users := Split(ignored, ',');
    for i := 0 to |users|
      invariant ignoredUsers.Keys == Elems(users[..i])
      invariant forall u :: u in ignoredUsers ==> ignoredUsers[u] && ',' !in u
    {
      assert users[..i + 1] == users[..i] + [users[i]];
      ignoredUsers := ignoredUsers[users[i] := true];
    }
    assert users[..|users|] == users;
  }

  /** The empty configuration ignores exactly the empty name. */
  method ReadIgnoredEmpty() returns (ignoredUsers: map<string, bool>)
    ensures ignoredUsers == map["" := true]
  {
    ignoredUsers := ReadIgnored("");
    assert Elems([""]) == {""};
  }

  // ---- IsWeekend ----

  /** `IsWeekend`: the date falls on a Saturday or a Sunday. */
  predicate IsWeekend(t: Calendar.Date)
    requires 1 <= t.month <= 12
  {
    Calendar.WeekdayOf(t) == Calendar.Saturday || Calendar.WeekdayOf(t) == Calendar.Sunday
  }

  /** A Friday is followed by a weekend day, and a Sunday by a working day. */
  lemma WeekendGate(t: Calendar.Date)
    requires Calendar.ValidDate(t)
    ensures Calendar.WeekdayOf(t) == Calendar.Friday ==> IsWeekend(Calendar.NextDay(t))
    ensures Calendar.WeekdayOf(t) == Calendar.Sunday ==> !IsWeekend(Calendar.NextDay(t))
  {
    Calendar.NextDayWeekday(t);
  }

  /** The dates of the test suite: 2022-01-01 and 2022-01-02 are weekend days, 2022-01-03 is not. */
  lemma IsWeekendExamples()
    ensures IsWeekend(Calendar.Date(2022, 1, 1))
    ensures IsWeekend(Calendar.Date(2022, 1, 2))
    ensures !IsWeekend(Calendar.Date(2022, 1, 3))
  {
    assert Calendar.DaysFromCivil(Calendar.Date(2022, 1, 1)) == 18993;
    assert Calendar.WeekdayOf(Calendar.Date(2022, 1, 1)) == Calendar.Saturday;
    Calendar.NextDayWeekday(Calendar.Date(2022, 1, 1));
    Calendar.NextDayWeekday(Calendar.Date(2022, 1, 2));
  }
}
