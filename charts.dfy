/**
 * The chart WebSocket (src/be/routers/charts.py): chart-type and token checks, the
 * module-level registries of connections, intervals, line counters and start times,
 * interval updates, cleanup, the line-point index, and the pie and bar payloads.
 * Times are whole milliseconds.
 */
module Charts {
  import opened Wrappers
  import opened Primitives
  import opened Security
  import Schemas
  import Chat

  const CHART_TYPES: seq<string> := ["line", "pie", "bar"]

  /** `connection_intervals.get(websocket, 2000)` and the interval set on connect. */
  const DEFAULT_INTERVAL_MS: int := Schemas.DEFAULT_INTERVAL_MS

  const POLICY_VIOLATION: int := 1008

  const INVALID_INTERVAL: string := "Invalid interval. Must be between 500ms and 60000ms"

  const PIE_CHART_LABELS: seq<string> := ["Technology", "Healthcare", "Finance", "Energy", "Consumer"]
  const BAR_CHART_LABELS: seq<string> := ["Q1", "Q2", "Q3", "Q4", "Q5"]
  const CHART_COLORS: seq<string> := ["#FF6384", "#36A2EB", "#FFCE56", "#4BC0C0", "#9966FF"]

  /** The accepted update range; the handler writes the same bounds as `ChartSubscribe`. */
  predicate IntervalInRange(ms: int)
  {
    Schemas.MIN_INTERVAL_MS <= ms <= Schemas.MAX_INTERVAL_MS
  }

  // ---------------------------------------------------------------- authentication

  /** `authenticate_websocket`: a non-empty token that decodes as an access token; the user table is not consulted. */
  function AuthenticateChartSocket(lib: Lib, token: Option<string>): (ok: bool)
    ensures ok ==> token.Some? && token.value != ""
  {
    token.Some? && token.value != "" && VerifyToken(lib, token.value, "access").Some?
  }

  /** Every token the chat socket accepts opens a chart stream too; the converse fails for deleted or inactive users. */
  lemma ChatAuthImpliesChartAuth(lib: Lib, users: seq<Models.User>, token: Option<string>)
    ensures Chat.AuthenticateWebsocket(lib, users, token).Some? ==> AuthenticateChartSocket(lib, token)
    ensures AuthenticateChartSocket(lib, token) && users == [] ==> Chat.AuthenticateWebsocket(lib, users, token).None?
  {
    if Chat.AuthenticateWebsocket(lib, users, token).Some? {
      assert token.Some? && token.value != "";
    }
  }

  // ---------------------------------------------------------------- inbound frames

  /**
   * A received frame as the receive loop sees it: not JSON; JSON without an
   * `interval_ms` member; an integer `interval_ms`; or a value on which the `in` test or
   * the comparison raises, which ends the connection.
   */
  datatype ChartInbound = Malformed | WithoutInterval | Interval(ms: int) | Raising

  datatype ChartReply = IntervalUpdated(intervalMs: int) | ErrorMessage(error: string)

  // ---------------------------------------------------------------- line points

  /** `int(a / b)` for a positive divisor: the quotient truncated toward zero. */
  function TruncDiv(a: int, b: int): (q: int)
    requires b > 0
    ensures a >= 0 ==> 0 <= q && q * b <= a < (q + 1) * b
    ensures a < 0 ==> q <= 0 && (q - 1) * b < a <= q * b
  {
    DivBounds(if a >= 0 then a else -a, b);
    if a >= 0 then a / b else -((-a) / b)
  }

  lemma DivBounds(a: nat, b: int)
    requires b > 0
    ensures 0 <= a / b && (a / b) * b <= a < (a / b + 1) * b
  {
    assert a == (a / b) * b + a % b;
    assert (a / b + 1) * b == (a / b) * b + b;
  }

  lemma MulLtCancel(a: int, b: int, k: int)
    requires k > 0 && a * k < b * k
    ensures a < b
  {
    assert (b - a) * k == b * k - a * k;
  }

  /** The index never decreases as time passes. */
  lemma LineIndexMonotone(e1: int, e2: int, interval: int)
    requires interval > 0 && e1 <= e2
    ensures TruncDiv(e1, interval) <= TruncDiv(e2, interval)
  {
    var q1, q2 := TruncDiv(e1, interval), TruncDiv(e2, interval);
    if e1 >= 0 {
      MulLtCancel(q1, q2 + 1, interval);
    } else if e2 < 0 {
      MulLtCancel(q1 - 1, q2, interval);
    }
  }

  /** One interval later, the index is exactly one higher. */
  lemma LineIndexAdvancesByOne(elapsed: int, interval: int)
    requires interval > 0 && elapsed >= 0
    ensures TruncDiv(elapsed + interval, interval) == TruncDiv(elapsed, interval) + 1
  {
    var q := TruncDiv(elapsed, interval);
    var q2 := TruncDiv(elapsed + interval, interval);
    assert (q + 1) * interval == q * interval + interval;
    assert (q + 2) * interval == (q + 1) * interval + interval;
    MulLtCancel(q2, q + 2, interval);
    MulLtCancel(q, q2, interval);
  }

  lemma ScaleWithin(x: real, u: real)
    requires x >= 0.0 && 0.0 <= u <= 1.0
    ensures 0.0 <= x * u <= x
  {
    assert x * (1.0 - u) == x - x * u;
  }

  // ---------------------------------------------------------------- pie and bar payloads

  /** A pie slice or a bar; `name` is the `label` field. */
  datatype ChartItem = ChartItem(name: string, value: real, color: string)

  datatype ChartPayload = LinePoint(index: int) | PieSlices(slices: seq<ChartItem>) | BarBars(bars: seq<ChartItem>)

  function MinReal(a: real, b: real): real
  {
    if a <= b then a else b
  }

  function SumValues(items: seq<ChartItem>): real
  {
    if items == [] then 0.0 else SumValues(items[..|items| - 1]) + items[|items| - 1].value
  }

  lemma SumAppend(items: seq<ChartItem>, x: ChartItem)
    ensures SumValues(items + [x]) == SumValues(items) + x.value
  {
    assert (items + [x])[..|items + [x]| - 1] == items;
  }

  /** The upper bound of slice `i`: room for five per remaining slice, and at most 60% of what is left. */
  function PieMax(remaining: real, i: int): real
  {
    MinReal(remaining - ((|PIE_CHART_LABELS| - i - 1) * 5) as real, remaining * 0.6)
  }

  /** Room is left for five per slice still to come, and a slice may take at least 5. */
  lemma PieMaxBounds(remaining: real, i: int)
    requires 0 <= i < 4 && remaining >= (25 - 5 * i) as real
    ensures 5.0 <= PieMax(remaining, i) <= remaining - (20 - 5 * i) as real
  {
    assert |PIE_CHART_LABELS| == 5;
    assert ((|PIE_CHART_LABELS| - i - 1) * 5) as real == (20 - 5 * i) as real;
  }

  /** `random.uniform(lo, hi)` for a draw `u` in [0, 1]: the value lies in [lo, hi]. */
  method Uniform(lo: real, hi: real, u: real) returns (v: real)
    requires lo <= hi && 0.0 <= u <= 1.0
    ensures lo <= v <= hi
  {
    var width := hi - lo;
    ScaleWithin(width, u);
    var offset := width * u;
    v := lo + offset;
  }

  /**
   * `generate_pie_chart_data`: four slices drawn with `random.uniform(5, max_value)`, and the
   * remainder as the fifth. Before rounding, every slice is at least 5 and together they make 100.
   */
  method GeneratePieChartData(draw: nat -> real) returns (slices: seq<ChartItem>)
    requires forall i: nat :: 0.0 <= draw(i) <= 1.0
    ensures |slices| == 5
    ensures forall k :: 0 <= k < 5 ==> slices[k].name == PIE_CHART_LABELS[k] && slices[k].color == CHART_COLORS[k]
    ensures forall k :: 0 <= k < 5 ==> slices[k].value >= 5.0
    ensures SumValues(slices) == 100.0
  {
    var remaining: real := 100.0;
    slices := [];
    var i := 0;
    while i < 4
      invariant 0 <= i <= 4 && |slices| == i
      invariant forall k :: 0 <= k < i ==> slices[k].name == PIE_CHART_LABELS[k] && slices[k].color == CHART_COLORS[k]
      invariant forall k :: 0 <= k < i ==> slices[k].value >= 5.0
      invariant SumValues(slices) + remaining == 100.0
      invariant remaining >= (25 - 5 * i) as real
    {
      PieMaxBounds(remaining, i);
      var value := Uniform(5.0, PieMax(remaining, i), draw(i));
      var item := ChartItem(PIE_CHART_LABELS[i], value, CHART_COLORS[i]);
      SumAppend(slices, item);
      remaining := remaining - value;
      slices := slices + [item];
      i := i + 1;
    }
    var last := ChartItem(PIE_CHART_LABELS[4], remaining, CHART_COLORS[4]);
    SumAppend(slices, last);
    slices := slices + [last];
  }

  /** `generate_bar_chart_data`: five bars drawn with `random.uniform(20, 80)`, so each value lies in [20, 80]. */
  method GenerateBarChartData(draw: nat -> real) returns (bars: seq<ChartItem>)
    requires forall i: nat :: 0.0 <= draw(i) <= 1.0
    ensures |bars| == 5
    ensures forall k :: 0 <= k < 5 ==> bars[k].name == BAR_CHART_LABELS[k] && bars[k].color == CHART_COLORS[k]
    ensures forall k :: 0 <= k < 5 ==> 20.0 <= bars[k].value <= 80.0
  {
    bars := [];
    var i := 0;
    while i < |BAR_CHART_LABELS|
      invariant 0 <= i <= 5 && |bars| == i
      invariant forall k :: 0 <= k < i ==> bars[k].name == BAR_CHART_LABELS[k] && bars[k].color == CHART_COLORS[k]
      invariant forall k :: 0 <= k < i ==> 20.0 <= bars[k].value <= 80.0
    {
      var value := Uniform(20.0, 80.0, draw(i));
      bars := bars + [ChartItem(BAR_CHART_LABELS[i], value, CHART_COLORS[i])];
      i := i + 1;
    }
  }

  // ---------------------------------------------------------------- the registries

  /** How the endpoint answers a new connection. */
  datatype Opening = ClosedBeforeAccept(code: int) | ClosedAfterAccept(code: int) | Streaming

  /** The four module-level registries of charts.py; connections are identified by number. */
  class ChartHub {
    var connections: map<string, set<nat>>
    var intervals: map<nat, int>
    var counters: map<nat, int>
    var startTimes: map<nat, int>

    /** The three chart types always have a set; stored intervals are in range; counters and start times go together. */
    predicate Valid()
      reads this
    {
      && connections.Keys == {"line", "pie", "bar"}
      && (forall c :: c in intervals ==> IntervalInRange(intervals[c]))
      && counters.Keys == startTimes.Keys
    }

    constructor ()
      ensures Valid()
      ensures connections == map["line" := {}, "pie" := {}, "bar" := {}]
      ensures intervals == map[] && counters == map[] && startTimes == map[]
    {
      connections := map["line" := {}, "pie" := {}, "bar" := {}];
      intervals := map[];
      counters := map[];
      startTimes := map[];
    }

    /**
     * The opening of `websocket_chart_endpoint`: an unknown chart type is closed with 1008
     * before accepting, a failed token after accepting; otherwise the connection is
     * registered under its type with the default interval.
     */
    method Connect(lib: Lib, conn: nat, chartType: string, token: Option<string>) returns (opening: Opening)
      requires Valid()
      modifies this
      ensures Valid()
      ensures chartType !in CHART_TYPES ==> opening == ClosedBeforeAccept(POLICY_VIOLATION)
      ensures chartType in CHART_TYPES && !AuthenticateChartSocket(lib, token) ==> opening == ClosedAfterAccept(POLICY_VIOLATION)
      ensures opening.Streaming? <==> chartType in CHART_TYPES && AuthenticateChartSocket(lib, token)
      ensures !opening.Streaming? ==>
        connections == old(connections) && intervals == old(intervals)
      ensures opening.Streaming? ==>
        && connections == old(connections)[chartType := old(connections)[chartType] + {conn}]
        && intervals == old(intervals)[conn := DEFAULT_INTERVAL_MS]
      ensures counters == old(counters) && startTimes == old(startTimes)
    {
      if chartType !in CHART_TYPES {
        return ClosedBeforeAccept(POLICY_VIOLATION);
      }
      if !AuthenticateChartSocket(lib, token) {
        return ClosedAfterAccept(POLICY_VIOLATION);
      }
      connections := connections[chartType := connections[chartType] + {conn}];
      intervals := intervals[conn := DEFAULT_INTERVAL_MS];
      opening := Streaming;
    }

    /**
     * One pass of the receive loop: an in-range interval is stored and acknowledged, an
     * out-of-range one is refused, a frame without the field gets no answer, and a frame
     * that raises ends the loop (`keepOpen` false).
     */
    method HandleMessage(conn: nat, msg: ChartInbound) returns (reply: Option<ChartReply>, keepOpen: bool)
      requires Valid()
      modifies this
      ensures Valid()
      ensures keepOpen <==> !msg.Raising?
      ensures msg.Malformed? ==> reply == Some(ErrorMessage("Invalid JSON message"))
      ensures msg.WithoutInterval? || msg.Raising? ==> reply == None
      ensures msg.Interval? && IntervalInRange(msg.ms) ==>
        reply == Some(IntervalUpdated(msg.ms)) && intervals == old(intervals)[conn := msg.ms]
      ensures msg.Interval? && !IntervalInRange(msg.ms) ==> reply == Some(ErrorMessage(INVALID_INTERVAL))
      ensures !(msg.Interval? && IntervalInRange(msg.ms)) ==> intervals == old(intervals)
      ensures connections == old(connections) && counters == old(counters) && startTimes == old(startTimes)
    {
      match msg {
        case Malformed =>
          reply, keepOpen := Some(ErrorMessage("Invalid JSON message")), true;
        case WithoutInterval =>
          reply, keepOpen := None, true;
        case Interval(ms) =>
          if IntervalInRange(ms) {
            intervals := intervals[conn := ms];
            reply := Some(IntervalUpdated(ms));
          } else {
            reply := Some(ErrorMessage(INVALID_INTERVAL));
          }
          keepOpen := true;
        case Raising =>
          reply, keepOpen := None, false;
      }
    }

    /** The `finally` cleanup: the connection leaves its type's set and all three per-connection maps. */
    method Cleanup(conn: nat, chartType: string)
      requires Valid() && chartType in CHART_TYPES
      modifies this
      ensures Valid()
      ensures connections == old(connections)[chartType := old(connections)[chartType] - {conn}]
      ensures intervals == old(intervals) - {conn}
      ensures counters == old(counters) - {conn}
      ensures startTimes == old(startTimes) - {conn}
    {
      connections := connections[chartType := connections[chartType] - {conn}];
      intervals := intervals - {conn};
      counters := counters - {conn};
      startTimes := startTimes - {conn};
    }

    /**
     * The end of a stream: the cancelled sender task runs the cleanup in its own `finally`,
     * then the endpoint runs it again; the second run changes nothing.
     */
    method Disconnect(conn: nat, chartType: string)
      requires Valid() && chartType in CHART_TYPES
      modifies this
      ensures Valid()
      ensures connections == old(connections)[chartType := old(connections)[chartType] - {conn}]
      ensures intervals == old(intervals) - {conn}
      ensures counters == old(counters) - {conn}
      ensures startTimes == old(startTimes) - {conn}
      ensures conn !in connections[chartType] && conn !in intervals && conn !in counters && conn !in startTimes
    {
      Cleanup(conn, chartType);
      ghost var once := connections;
      Cleanup(conn, chartType);
      assert once[chartType] - {conn} == once[chartType];
      assert connections == once;
    }

    /**
     * `generate_line_chart_point`: the first point fixes the start time and resets the
     * counter; the index is the elapsed time over the interval (default 2000), truncated
     * toward zero, and is stored as the counter.
     */
    method GenerateLineChartPoint(conn: nat, now: int) returns (index: int)
      requires Valid()
      modifies this
      ensures Valid()
      ensures var start := if conn in old(startTimes) then old(startTimes)[conn] else now;
        var interval := if conn in intervals then intervals[conn] else DEFAULT_INTERVAL_MS;
        && interval > 0
        && index == TruncDiv(now - start, interval)
        && startTimes == old(startTimes)[conn := start]
        && counters == old(counters)[conn := index]
      ensures conn !in old(startTimes) ==> index == 0
      ensures connections == old(connections) && intervals == old(intervals)
    {
      if conn !in startTimes {
        startTimes := startTimes[conn := now];
        counters := counters[conn := 0];
      }
      var interval := if conn in intervals then intervals[conn] else DEFAULT_INTERVAL_MS;
      var elapsed := now - startTimes[conn];
      index := TruncDiv(elapsed, interval);
      counters := counters[conn := index];
    }

    /** `send_chart_data`: one payload per known chart type, nothing for any other. */
    method SendChartData(conn: nat, chartType: string, now: int, draw: nat -> real) returns (payload: Option<ChartPayload>)
      requires Valid()
      requires forall i: nat :: 0.0 <= draw(i) <= 1.0
      modifies this
      ensures Valid()
      ensures chartType !in CHART_TYPES <==> payload.None?
      ensures chartType == "line" ==> payload.Some? && payload.value.LinePoint?
      ensures chartType == "line" ==>
        var start := if conn in old(startTimes) then old(startTimes)[conn] else now;
        var interval := if conn in intervals then intervals[conn] else DEFAULT_INTERVAL_MS;
        && payload.value.index == TruncDiv(now - start, interval)
        && (conn !in old(startTimes) ==> payload.value.index == 0)
        && startTimes == old(startTimes)[conn := start]
        && counters == old(counters)[conn := payload.value.index]
      ensures chartType == "pie" ==>
        && payload.Some? && payload.value.PieSlices? && |payload.value.slices| == 5
        && SumValues(payload.value.slices) == 100.0
        && forall k :: 0 <= k < 5 ==>
          && payload.value.slices[k].name == PIE_CHART_LABELS[k] && payload.value.slices[k].color == CHART_COLORS[k]
          && payload.value.slices[k].value >= 5.0
      ensures chartType == "bar" ==>
        && payload.Some? && payload.value.BarBars? && |payload.value.bars| == 5
        && forall k :: 0 <= k < 5 ==>
          && payload.value.bars[k].name == BAR_CHART_LABELS[k] && payload.value.bars[k].color == CHART_COLORS[k]
          && 20.0 <= payload.value.bars[k].value <= 80.0
      ensures chartType != "line" ==> counters == old(counters) && startTimes == old(startTimes)
      ensures connections == old(connections) && intervals == old(intervals)
    {
      if chartType == "line" {
        var index := GenerateLineChartPoint(conn, now);
        payload := Some(LinePoint(index));
      } else if chartType == "pie" {
        var slices := GeneratePieChartData(draw);
        payload := Some(PieSlices(slices));
      } else if chartType == "bar" {
        var bars := GenerateBarChartData(draw);
        payload := Some(BarBars(bars));
      } else {
        payload := None;
      }
    }
  }
}
