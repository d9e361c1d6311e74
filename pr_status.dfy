/** The pipeline of index.js: fetched pull-request nodes are normalised
    (mapPr), kept when updated in the last fifteen minutes (recently), passed
    through the debug log step, rendered as `#<number> <icon>` and joined into
    the one line shown in the touch bar. The GraphQL fetch, the clock and
    Date.parse are outside the model: their results are parameters. */
module PrStatus {
  import opened Wrappers
  import opened Decimal

  // ---------------------------------------------------------------------
  // Data model
  // ---------------------------------------------------------------------

  /** A parsed timestamp in milliseconds. `Invalid` is the NaN that
      Date.parse yields for a null or unparsable `pushedDate`. */
  datatype Instant = At(ms: int) | Invalid

  /** The `status { state }` object of a commit. */
  datatype CommitStatus = CommitStatus(state: string)

  /** One node of `commits(last: 1) { nodes { commit { ... } } }`, with its
      `pushedDate` already parsed. `status` is null for a commit without one. */
  datatype RawCommit = RawCommit(pushedDate: Instant, status: Option<CommitStatus>)

  /** One node of `pullRequests { nodes { ... } }` as the API returns it. */
  datatype RawNode = RawNode(number: int, commits: seq<RawCommit>)

  /** The normalised record that mapPr builds. */
  datatype Pr = Pr(number: int, updatedAt: Instant, status: string)

  /** What makes a run fail: the query itself, or a field access in mapPr on
      a value that is not there (a TypeError in the source). */
  datatype Error = FetchFailed | MissingCommit | MissingStatus

  // ---------------------------------------------------------------------
  // mapPr
  // ---------------------------------------------------------------------

  /** `mapPr`: the number of the node, the push date and status state of the
      first listed commit. Indexing `nodes[0]` of an empty list or reading
      `state` of a null status throws. */
  function MapPr(node: RawNode): (r: Result<Pr, Error>)
    ensures r.Success? <==> |node.commits| > 0 && node.commits[0].status.Some?
    ensures r == Failure(MissingCommit) <==> |node.commits| == 0
    ensures r == Failure(MissingStatus) <==> |node.commits| > 0 && node.commits[0].status.None?
    ensures r.Success? ==>
      && r.value.number == node.number
      && r.value.updatedAt == node.commits[0].pushedDate
      && r.value.status == node.commits[0].status.value.state
  {
    if |node.commits| == 0 then Failure(MissingCommit)
    else
      var commit := node.commits[0];
      match commit.status
      case None => Failure(MissingStatus)
      case Some(st) => Success(Pr(node.number, commit.pushedDate, st.state))
  }

  /** `.map(mapPr)`: every node mapped in order; the first node that throws
      aborts the whole map with its error. */
  function MapPrs(nodes: seq<RawNode>): (r: Result<seq<Pr>, Error>)
    ensures r.Success? <==> forall i :: 0 <= i < |nodes| ==> MapPr(nodes[i]).Success?
    ensures r.Success? ==>
      |r.value| == |nodes| && forall i :: 0 <= i < |nodes| ==> r.value[i] == MapPr(nodes[i]).value
    ensures r.Failure? ==>
      exists i :: 0 <= i < |nodes| && MapPr(nodes[i]) == Failure(r.error)
        && forall j :: 0 <= j < i ==> MapPr(nodes[j]).Success?
  {
    if nodes == [] then Success([])
    else
      match MapPr(nodes[0])
      case Failure(e) => Failure(e)
      case Success(pr) =>
        match MapPrs(nodes[1..])
        case Failure(e) =>
          assert forall i :: 1 <= i < |nodes| ==> nodes[i] == nodes[1..][i - 1];
          Failure(e)
        case Success(prs) => Success([pr] + prs)
  }

  // ---------------------------------------------------------------------
  // recently
  // ---------------------------------------------------------------------

  /** The recency window, fifteen minutes in milliseconds. */
  const WindowMs: int := 15 * 60 * 1000

  /** `recently(now)(pr)`: updated no earlier than fifteen minutes before
      `now`. A NaN timestamp compares false, so such a record is dropped. */
  predicate Recently(now: int, pr: Pr) {
    match pr.updatedAt
    case At(t) => t >= now - WindowMs
    case Invalid => false
  }

  /** Recent means: a valid timestamp at most 900000 ms before `now`
      (timestamps after `now` included). */
  lemma RecentlyIsWithinFifteenMinutes(now: int, pr: Pr)
    ensures Recently(now, pr) <==> pr.updatedAt.At? && now - pr.updatedAt.ms <= 900000
  {
  }

  /** The boundary is inclusive: exactly fifteen minutes old is kept, one
      millisecond more is dropped, and a record updated at `now` is kept. */
  lemma RecentlyBoundary(now: int, number: int, status: string)
    ensures Recently(now, Pr(number, At(now), status))
    ensures Recently(now, Pr(number, At(now - 900000), status))
    ensures !Recently(now, Pr(number, At(now - 900001), status))
    ensures !Recently(now, Pr(number, Invalid, status))
  {
  }

  /** A record updated no earlier than a retained one is retained too. */
  lemma RecentlyMonotoneInUpdate(now: int, p: Pr, q: Pr)
    requires Recently(now, p)
    requires q.updatedAt.At? && q.updatedAt.ms >= p.updatedAt.ms
    ensures Recently(now, q)
  {
  }

  /** A record retained at `now` is retained at every earlier `now`. */
  lemma RecentlyMonotoneInNow(now: int, earlier: int, p: Pr)
    requires Recently(now, p) && earlier <= now
    ensures Recently(earlier, p)
  {
  }

  /** `.filter(recently(now))` with the single `now` captured before it. */
  function FilterRecent(prs: seq<Pr>, now: int): (r: seq<Pr>)
    ensures |r| <= |prs|
    ensures forall p :: p in r ==> p in prs && Recently(now, p)
    ensures forall p :: p in prs && Recently(now, p) ==> p in r
  {
    if prs == [] then []
    else if Recently(now, prs[0]) then [prs[0]] + FilterRecent(prs[1..], now)
    else FilterRecent(prs[1..], now)
  }

  /** `r` is `s` read at the positions `idx`. */
  ghost predicate ReadsAt(r: seq<Pr>, s: seq<Pr>, idx: seq<nat>) {
    |idx| == |r| && forall k :: 0 <= k < |idx| ==> idx[k] < |s| && r[k] == s[idx[k]]
  }

  ghost predicate Increasing(idx: seq<nat>) {
    forall k, l :: 0 <= k < l < |idx| ==> idx[k] < idx[l]
  }

  /** The positions in `idx` are exactly those of the recent records of `s`. */
  ghost predicate MarksRecent(s: seq<Pr>, now: int, idx: seq<nat>) {
    forall i :: 0 <= i < |s| ==> (Recently(now, s[i]) <==> i in idx)
  }

  /** `idx` lists, in increasing order, the positions of `s` that `r` takes,
      and those are exactly the positions whose record is recent. */
  ghost predicate SelectsRecent(r: seq<Pr>, s: seq<Pr>, now: int, idx: seq<nat>) {
    ReadsAt(r, s, idx) && Increasing(idx) && MarksRecent(s, now, idx)
  }

  /** Every position moved one place to the right. */
  function Shift(idx: seq<nat>): (r: seq<nat>)
    ensures |r| == |idx| && forall k :: 0 <= k < |r| ==> r[k] == idx[k] + 1
  {
    seq(|idx|, k requires 0 <= k < |idx| => idx[k] + 1)
  }

  lemma InShift(idx: seq<nat>, i: nat)
    ensures i + 1 in Shift(idx) <==> i in idx
    ensures 0 !in Shift(idx)
  {
    var sh := Shift(idx);
    if i + 1 in sh {
      var k :| 0 <= k < |sh| && sh[k] == i + 1;
      assert idx[k] == i;
    }
    if i in idx {
      var k :| 0 <= k < |idx| && idx[k] == i;
      assert sh[k] == i + 1;
    }
  }

  lemma ReadsAtCons(p: Pr, tail: seq<Pr>, r: seq<Pr>, idx: seq<nat>)
    requires ReadsAt(r, tail, idx)
    ensures ReadsAt(r, [p] + tail, Shift(idx))
    ensures ReadsAt([p] + r, [p] + tail, [0] + Shift(idx))
  {
    var s, sh := [p] + tail, Shift(idx);
    forall k | 0 <= k < |sh|
      ensures sh[k] < |s| && r[k] == s[sh[k]]
    {
      assert s[idx[k] + 1] == tail[idx[k]];
    }
    var ix, q := [0] + sh, [p] + r;
    forall k | 0 < k < |ix|
      ensures ix[k] < |s| && q[k] == s[ix[k]]
    {
      assert ix[k] == sh[k - 1] && q[k] == r[k - 1];
    }
  }

  lemma IncreasingCons(idx: seq<nat>)
    requires Increasing(idx)
    ensures Increasing(Shift(idx)) && Increasing([0] + Shift(idx))
  {
    var ix := [0] + Shift(idx);
    forall k, l | 0 <= k < l < |ix|
      ensures ix[k] < ix[l]
    {
      assert ix[l] == idx[l - 1] + 1;
      if k > 0 {
        assert ix[k] == idx[k - 1] + 1;
      }
    }
  }

  lemma MarksRecentCons(p: Pr, tail: seq<Pr>, now: int, idx: seq<nat>)
    requires MarksRecent(tail, now, idx)
    ensures MarksRecent([p] + tail, now, if Recently(now, p) then [0] + Shift(idx) else Shift(idx))
  {
    var s, sh := [p] + tail, Shift(idx);
    var ix := if Recently(now, p) then [0] + sh else sh;
    forall i | 0 <= i < |s|
      ensures Recently(now, s[i]) <==> i in ix
    {
      if i == 0 {
        InShift(idx, 0);
      } else {
        InShift(idx, i - 1);
        assert s[i] == tail[i - 1];
        assert i in ix <==> i in sh;
      }
    }
  }

  /** The positions of the recent records of `prs`, in increasing order. */
  ghost function RecentPositions(prs: seq<Pr>, now: int): seq<nat> {
    if prs == [] then []
    else if Recently(now, prs[0]) then [0] + Shift(RecentPositions(prs[1..], now))
    else Shift(RecentPositions(prs[1..], now))
  }

  lemma {:induction false} FilterRecentSelectsAt(prs: seq<Pr>, now: int)
    ensures SelectsRecent(FilterRecent(prs, now), prs, now, RecentPositions(prs, now))
  {
    if prs != [] {
      var tail := prs[1..];
      var kept, idx := FilterRecent(tail, now), RecentPositions(tail, now);
      FilterRecentSelectsAt(tail, now);
      assert prs == [prs[0]] + tail;
      ReadsAtCons(prs[0], tail, kept, idx);
      IncreasingCons(idx);
      MarksRecentCons(prs[0], tail, now, idx);
    }
  }

  /** The filter keeps every recent record and only those, each exactly as
      often as it occurs, and never reorders. */
  lemma FilterRecentSelects(prs: seq<Pr>, now: int)
    ensures exists idx :: SelectsRecent(FilterRecent(prs, now), prs, now, idx)
  {
    FilterRecentSelectsAt(prs, now);
  }

  // ---------------------------------------------------------------------
  // log and getRecentPRs
  // ---------------------------------------------------------------------

  /** `log`: prints its argument when DEBUG is set (left out) and returns it. */
  function Log(pr: Pr): Pr {
    pr
  }

  /** `.map(log)`. */
  function LogAll(prs: seq<Pr>): (r: seq<Pr>)
    ensures r == prs
  {
    if prs == [] then [] else [Log(prs[0])] + LogAll(prs[1..])
  }

  /** The chain `nodes.map(mapPr).filter(recently(now)).map(log)` of
      `getRecentPRs`, for the nodes the query returned and the `now` taken
      once before the chain. */
  function GetRecentPrs(nodes: seq<RawNode>, now: int): (r: Result<seq<Pr>, Error>)
    ensures r.Success? <==> forall i :: 0 <= i < |nodes| ==> MapPr(nodes[i]).Success?
    ensures r.Failure? ==> r.error in {MissingCommit, MissingStatus}
    ensures r.Success? ==>
      && MapPrs(nodes).Success?
      && (forall p :: p in r.value ==> Recently(now, p))
      && exists idx :: SelectsRecent(r.value, MapPrs(nodes).value, now, idx)
  {
    match MapPrs(nodes)
    case Failure(e) => Failure(e)
    case Success(prs) =>
      FilterRecentSelects(prs, now);
      Success(LogAll(FilterRecent(prs, now)))
  }

  // ---------------------------------------------------------------------
  // statusIcon, format and the output line of run
  // ---------------------------------------------------------------------

  const CheckMark: string := "\U{2705}"
  const Clock: string := "\U{1F550}"
  const Cross: string := "\U{274C}"

  predicate IsIconChar(c: char) {
    c == CheckMark[0] || c == Clock[0] || c == Cross[0]
  }

  /** `statusIcon`: a case-sensitive switch with the cross as its default. */
  function StatusIcon(status: string): (icon: string)
    ensures |icon| == 1 && IsIconChar(icon[0])
    ensures icon == CheckMark <==> status == "SUCCESS"
    ensures icon == Clock <==> status == "PENDING"
    ensures icon == Cross <==> status != "SUCCESS" && status != "PENDING"
  {
    match status
    case "SUCCESS" => CheckMark
    case "PENDING" => Clock
    case _ => Cross
  }

  /** `format`: the template literal `#${pr.number} ${statusIcon(pr)}`. */
  function Format(pr: Pr): string {
    "#" + IntToDecimal(pr.number) + " " + StatusIcon(pr.status)
  }

  /** `prs.map(format)`. */
  function FormatAll(prs: seq<Pr>): (r: seq<string>)
    ensures |r| == |prs| && forall i :: 0 <= i < |prs| ==> r[i] == Format(prs[i])
  {
    if prs == [] then [] else [Format(prs[0])] + FormatAll(prs[1..])
  }

  /** Total length of the items. */
  function TotalLength(items: seq<string>): nat {
    if items == [] then 0 else |items[0]| + TotalLength(items[1..])
  }

  /** `Array.prototype.join(' ')`. */
  function JoinSpaced(items: seq<string>): string {
    if |items| == 0 then ""
    else if |items| == 1 then items[0]
    else items[0] + " " + JoinSpaced(items[1..])
  }

  /** A formatted item is `#`, the rendered number, one space and the
      one-character icon, in that order. */
  lemma FormatShape(pr: Pr)
    ensures var s := Format(pr);
      |s| >= 4 && s[0] == '#' && s[|s| - 2] == ' ' &&
      s[1..|s| - 2] == IntToDecimal(pr.number) && [s[|s| - 1]] == StatusIcon(pr.status)
  {
    var d := IntToDecimal(pr.number);
    var s := Format(pr);
    assert s == ['#'] + d + [' '] + StatusIcon(pr.status);
    assert |s| == |d| + 3;
    assert s[1..|s| - 2] == d;
  }

  /** Joining puts the first item at the front, a space right after it when
      more follow, the last item at the end, and one space between each pair
      of neighbours. */
  lemma {:induction false} JoinSpacedShape(items: seq<string>)
    ensures |items| == 0 ==> JoinSpaced(items) == []
    ensures |items| > 0 ==> |JoinSpaced(items)| + 1 == TotalLength(items) + |items|
    ensures |items| > 0 ==> JoinSpaced(items)[..|items[0]|] == items[0]
    ensures |items| > 0 ==>
      |items[|items| - 1]| <= |JoinSpaced(items)| &&
      JoinSpaced(items)[|JoinSpaced(items)| - |items[|items| - 1]|..] == items[|items| - 1]
    ensures |items| > 1 ==> JoinSpaced(items)[|items[0]|] == ' '
    decreases |items|
  {
    if |items| > 1 {
      var rest := items[1..];
      JoinSpacedShape(rest);
      var j := JoinSpaced(rest);
      var r := JoinSpaced(items);
      assert r == items[0] + " " + j;
      assert TotalLength(items) == |items[0]| + TotalLength(rest);
      assert r[..|items[0]|] == items[0];
      var last := items[|items| - 1];
      assert last == rest[|rest| - 1];
      assert r[|r| - |last|..] == j[|j| - |last|..];
    }
  }

  /** The `if (prs.length > 0) console.log(prs.map(format).join(' '))` of
      `run`: the line printed, or None when nothing is printed. */
  function RenderLine(prs: seq<Pr>): (line: Option<string>)
    ensures line.None? <==> prs == []
    ensures line.Some? ==> |line.value| >= 3 && line.value[0] == '#'
  {
    if |prs| > 0 then Some(JoinSpaced(FormatAll(prs))) else None
  }

  /** `run` without its side effects: the fetch result (or the error the
      query threw) and the clock reading in, the printed line or the error
      that the catch block swallows out. */
  function Run(fetched: Result<seq<RawNode>, Error>, now: int): (r: Result<Option<string>, Error>)
    ensures fetched.Failure? ==> r == Failure(fetched.error)
    ensures fetched.Success? ==>
      (r.Success? <==> forall i :: 0 <= i < |fetched.value| ==> MapPr(fetched.value[i]).Success?)
  {
    match fetched
    case Failure(e) => Failure(e)
    case Success(nodes) =>
      match GetRecentPrs(nodes, now)
      case Failure(e) => Failure(e)
      case Success(prs) => Success(RenderLine(prs))
  }

  // ---------------------------------------------------------------------
  // Reading the line back
  // ---------------------------------------------------------------------

  /** What one item of the line tells a reader: a PR number and an icon. */
  datatype Entry = Entry(number: int, icon: string)

  function Summary(pr: Pr): Entry {
    Entry(pr.number, StatusIcon(pr.status))
  }

  function Summaries(prs: seq<Pr>): (r: seq<Entry>)
    ensures |r| == |prs| && forall i :: 0 <= i < |prs| ==> r[i] == Summary(prs[i])
  {
    if prs == [] then [] else [Summary(prs[0])] + Summaries(prs[1..])
  }

  /** Number of leading digits of `s`. */
  function DigitSpan(s: string): (k: nat)
    ensures k <= |s| && AllDigits(s[..k])
    ensures k < |s| ==> !IsDigit(s[k])
  {
    if s == [] || !IsDigit(s[0]) then 0 else 1 + DigitSpan(s[1..])
  }

  /** Reads a run of digits at the front of `s` as a natural. */
  function ReadNat(s: string): (r: Option<(nat, string)>)
    ensures r.Some? ==> |r.value.1| < |s|
  {
    var k := DigitSpan(s);
    if k == 0 then None else Some((ValueOf(s[..k]), s[k..]))
  }

  function Negated(m: Option<(nat, string)>): Option<(int, string)> {
    if m.None? then None else Some((-(m.value.0 as int), m.value.1))
  }

  /** Reads an optionally negative integer numeral at the front of `s`. */
  function ReadInt(s: string): (r: Option<(int, string)>)
    ensures r.Some? ==> |r.value.1| < |s|
  {
    if |s| > 0 && s[0] == '-' then Negated(ReadNat(s[1..])) else ReadNat(s)
  }

  /** What follows the number of an item: a space, an icon, the rest. */
  function ReadIconAfter(m: Option<(int, string)>): Option<(Entry, string)> {
    match m
    case None => None
    case Some((n, rest)) =>
      if |rest| >= 2 && rest[0] == ' ' && IsIconChar(rest[1])
      then Some((Entry(n, [rest[1]]), rest[2..]))
      else None
  }

  /** Reads one `#<number> <icon>` item at the front of `s`. */
  function ReadItem(s: string): (r: Option<(Entry, string)>)
    ensures r.Some? ==> |r.value.1| < |s|
  {
    if |s| == 0 || s[0] != '#' then None else ReadIconAfter(ReadInt(s[1..]))
  }

  /** Parses a status-bar line: items separated by single spaces. */
  function ParseLine(s: string): Option<seq<Entry>>
    decreases |s|
  {
    match ReadItem(s)
    case None => None
    case Some((e, rest)) =>
      if rest == [] then Some([e])
      else if rest[0] != ' ' then None
      else
        match ParseLine(rest[1..])
        case None => None
        case Some(es) => Some([e] + es)
  }

  lemma {:induction false} DigitSpanOfNumeral(d: string, t: string)
    requires AllDigits(d)
    requires t == [] || !IsDigit(t[0])
    ensures DigitSpan(d + t) == |d|
  {
    if d != [] {
      assert (d + t)[1..] == d[1..] + t;
      DigitSpanOfNumeral(d[1..], t);
    } else {
      assert d + t == t;
    }
  }

  lemma ReadNatOfDecimal(m: nat, t: string)
    requires t == [] || !IsDigit(t[0])
    ensures ReadNat(NatToDecimal(m) + t) == Some((m, t))
  {
    var d := NatToDecimal(m);
    ValueOfNatToDecimal(m);
    DigitSpanOfNumeral(d, t);
    assert (d + t)[..|d|] == d && (d + t)[|d|..] == t;
  }

  /** The rendered number is read back, and reading stops where it ends. */
  lemma ReadIntOfDecimal(n: int, t: string)
    requires t == [] || !IsDigit(t[0])
    ensures ReadInt(IntToDecimal(n) + t) == Some((n, t))
  {
    if n < 0 {
      ReadIntOfNegative(n, t);
    } else {
      ReadIntOfNonNegative(n, t);
    }
  }

  lemma ReadIntOfMinus(d: string, t: string)
    ensures ReadInt(("-" + d) + t) == Negated(ReadNat(d + t))
  {
    assert (("-" + d) + t)[1..] == d + t;
  }

  lemma ReadIntOfNegative(n: int, t: string)
    requires n < 0 && (t == [] || !IsDigit(t[0]))
    ensures ReadInt(IntToDecimal(n) + t) == Some((n, t))
  {
    ReadNatOfDecimal(-n, t);
    ReadIntOfMinus(NatToDecimal(-n), t);
  }

  lemma ReadIntOfNonNegative(n: int, t: string)
    requires n >= 0 && (t == [] || !IsDigit(t[0]))
    ensures ReadInt(IntToDecimal(n) + t) == Some((n, t))
  {
    var s := IntToDecimal(n) + t;
    assert s[0] == NatToDecimal(n)[0];
    ReadNatOfDecimal(n, t);
  }

  lemma ReadItemOfHash(u: string)
    ensures ReadItem(['#'] + u) == ReadIconAfter(ReadInt(u))
  {
    assert (['#'] + u)[1..] == u;
  }

  lemma RegroupItem(d: string, c: char, t: string)
    ensures "#" + d + " " + [c] + t == ['#'] + (d + ([' ', c] + t))
  {
  }

  /** One formatted item followed by the end of the line or a space is read
      back as the PR's number and icon. */
  lemma ReadItemOfFormat(pr: Pr, t: string)
    requires t == [] || t[0] == ' '
    ensures ReadItem(Format(pr) + t) == Some((Summary(pr), t))
  {
    var icon := StatusIcon(pr.status);
    var d := IntToDecimal(pr.number);
    var after := [' ', icon[0]] + t;
    ReadIntOfDecimal(pr.number, after);
    ReadItemOfHash(d + after);
    assert icon == [icon[0]];
    RegroupItem(d, icon[0], t);
    assert after[2..] == t;
  }

  /** Round trip: the printed line determines, in order, the number and icon
      of every retained PR. */
  lemma {:induction false} ParseRenderedLine(prs: seq<Pr>)
    requires prs != []
    ensures ParseLine(JoinSpaced(FormatAll(prs))) == Some(Summaries(prs))
  {
    var rest := prs[1..];
    assert FormatAll(prs) == [Format(prs[0])] + FormatAll(rest);
    assert Summaries(prs) == [Summary(prs[0])] + Summaries(rest);
    if rest == [] {
      ReadItemOfFormat(prs[0], []);
      assert Format(prs[0]) + [] == Format(prs[0]);
      assert Summaries(prs) == [Summary(prs[0])];
    } else {
      var tail := " " + JoinSpaced(FormatAll(rest));
      assert JoinSpaced(FormatAll(prs)) == Format(prs[0]) + tail;
      ReadItemOfFormat(prs[0], tail);
      assert tail[1..] == JoinSpaced(FormatAll(rest));
      ParseRenderedLine(rest);
    }
  }

  /** End to end: when the run prints, the line lists exactly the recent PRs
      in fetch order; when it prints nothing, no PR is recent. */
  lemma RunOutput(nodes: seq<RawNode>, now: int)
    requires forall i :: 0 <= i < |nodes| ==> MapPr(nodes[i]).Success?
    ensures Run(Success(nodes), now).Success?
    ensures Run(Success(nodes), now).value.None? <==>
      forall i :: 0 <= i < |nodes| ==> !Recently(now, MapPr(nodes[i]).value)
    ensures Run(Success(nodes), now).value.Some? ==>
      ParseLine(Run(Success(nodes), now).value.value)
        == Some(Summaries(FilterRecent(MapPrs(nodes).value, now)))
  {
    var prs := MapPrs(nodes).value;
    var kept := FilterRecent(prs, now);
    assert GetRecentPrs(nodes, now) == Success(kept);
    if kept != [] {
      ParseRenderedLine(kept);
      var p := kept[0];
      assert p in kept;
      var i :| 0 <= i < |prs| && prs[i] == p;
      assert Recently(now, MapPr(nodes[i]).value);
    } else {
      forall i | 0 <= i < |nodes|
        ensures !Recently(now, MapPr(nodes[i]).value)
      {
        assert prs[i] in prs;
      }
    }
  }

  // ---------------------------------------------------------------------
  // Worked scenarios
  // ---------------------------------------------------------------------

  function Node(number: int, pushed: int, state: string): RawNode {
    RawNode(number, [RawCommit(At(pushed), Some(CommitStatus(state)))])
  }

  function ScenarioNodes(now: int): seq<RawNode> {
    [Node(101, now, "SUCCESS"), Node(102, now - 60000, "PENDING"), Node(103, now - 900000, "FAILURE")]
  }

  function ScenarioPrs(now: int): seq<Pr> {
    [Pr(101, At(now), "SUCCESS"), Pr(102, At(now - 60000), "PENDING"), Pr(103, At(now - 900000), "FAILURE")]
  }

  lemma ScenarioAllRecentMapped(now: int)
    ensures MapPrs(ScenarioNodes(now)) == Success(ScenarioPrs(now))
  {
    var prs, nodes := ScenarioPrs(now), ScenarioNodes(now);
    assert forall i :: 0 <= i < 3 ==> MapPr(nodes[i]) == Success(prs[i]);
    assert MapPrs(nodes).value == prs;
  }

  lemma ScenarioAllRecentFiltered(now: int)
    ensures FilterRecent(ScenarioPrs(now), now) == ScenarioPrs(now)
  {
    var prs := ScenarioPrs(now);
    assert FilterRecent(prs[2..], now) == prs[2..] by {
      assert prs[2..][1..] == [];
    }
    assert FilterRecent(prs[1..], now) == prs[1..] by {
      assert prs[1..][1..] == prs[2..];
    }
  }

  lemma ScenarioAllRecentKept(now: int)
    ensures GetRecentPrs(ScenarioNodes(now), now) == Success(ScenarioPrs(now))
  {
    ScenarioAllRecentMapped(now);
    ScenarioAllRecentFiltered(now);
  }

  lemma ScenarioNumerals()
    ensures IntToDecimal(101) == "101" && IntToDecimal(102) == "102" && IntToDecimal(103) == "103"
  {
    assert NatToDecimal(10) == "10";
  }

  lemma ScenarioFormats(at: Instant)
    ensures Format(Pr(101, at, "SUCCESS")) == "#101 \U{2705}"
    ensures Format(Pr(102, at, "PENDING")) == "#102 \U{1F550}"
    ensures Format(Pr(103, at, "FAILURE")) == "#103 \U{274C}"
  {
    ScenarioNumerals();
  }

  lemma ScenarioAllRecentItems(now: int)
    ensures FormatAll(ScenarioPrs(now)) == ["#101 \U{2705}", "#102 \U{1F550}", "#103 \U{274C}"]
  {
    var prs := ScenarioPrs(now);
    ScenarioFormats(prs[0].updatedAt);
    ScenarioFormats(prs[1].updatedAt);
    ScenarioFormats(prs[2].updatedAt);
    assert FormatAll(prs[2..]) == [Format(prs[2])] by {
      assert prs[2..][1..] == [];
    }
    assert FormatAll(prs[1..]) == [Format(prs[1]), Format(prs[2])] by {
      assert prs[1..][1..] == prs[2..];
    }
  }

  lemma JoinSpacedThree(a: string, b: string, c: string)
    ensures JoinSpaced([a, b, c]) == a + " " + (b + " " + c)
  {
    assert [a, b, c][1..] == [b, c] && [b, c][1..] == [c];
    assert JoinSpaced([c]) == c;
    assert JoinSpaced([b, c]) == b + " " + c;
  }

  lemma ScenarioAllRecentText()
    ensures "#101 \U{2705}" + " " + ("#102 \U{1F550}" + " " + "#103 \U{274C}")
      == "#101 \U{2705} #102 \U{1F550} #103 \U{274C}"
  {
  }

  lemma ScenarioAllRecentLine(now: int)
    ensures RenderLine(ScenarioPrs(now)) == Some("#101 \U{2705} #102 \U{1F550} #103 \U{274C}")
  {
    ScenarioAllRecentItems(now);
    JoinSpacedThree("#101 \U{2705}", "#102 \U{1F550}", "#103 \U{274C}");
    ScenarioAllRecentText();
  }

  /** Three recent PRs with statuses SUCCESS, PENDING and FAILURE. */
  lemma ScenarioAllRecent(now: int)
    ensures Run(Success(ScenarioNodes(now)), now)
      == Success(Some("#101 \U{2705} #102 \U{1F550} #103 \U{274C}"))
  {
    ScenarioAllRecentKept(now);
    ScenarioAllRecentLine(now);
  }

  /** Three PRs all older than the window: nothing is printed, no failure. */
  lemma ScenarioNoneRecent(now: int)
    ensures Run(Success([Node(101, now - 900001, "SUCCESS"), Node(102, now - 3600000, "PENDING"),
                         Node(103, now - 86400000, "FAILURE")]), now)
      == Success(None)
  {
  }

  /** A first commit without a status object fails the whole run. */
  lemma ScenarioMissingStatus(now: int)
    ensures Run(Success([Node(101, now, "SUCCESS"),
                         RawNode(102, [RawCommit(At(now), None)])]), now)
      == Failure(MissingStatus)
  {
    var nodes := [Node(101, now, "SUCCESS"), RawNode(102, [RawCommit(At(now), None)])];
    assert MapPr(nodes[0]).Success?;
    assert MapPr(nodes[1]) == Failure(MissingStatus);
  }
}
