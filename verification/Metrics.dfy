/**
 Metric label values and series keys: the escaping of the Prometheus text exposition format 0.0.4 ("Text
 format details"), and the keys under which labelled samples are stored.
 */
module Metrics {

  // ----- escaping -----

  /** strings.ReplaceAll for a one-character pattern. */
  function ReplaceAll(s: string, c: char, to: string): string {
    if s == "" then "" else (if s[0] == c then to else [s[0]]) + ReplaceAll(s[1..], c, to)
  }

  /** escapeLabel: backslashes first, then quotes, then newlines. */
  function EscapeLabel(v: string): string {
    ReplaceAll(ReplaceAll(ReplaceAll(v, '\\', "\\\\"), '"', "\\\""), '\n', "\\n")
  }

  /** What the format asks of each character. */
  function EscapeChar(c: char): string {
    if c == '\\' then "\\\\" else if c == '"' then "\\\"" else if c == '\n' then "\\n" else [c]
  }

  function EscapeEach(v: string): string {
    if v == "" then "" else EscapeChar(v[0]) + EscapeEach(v[1..])
  }

  lemma {:induction false} ReplaceAllConcat(a: string, b: string, c: char, to: string)
    ensures ReplaceAll(a + b, c, to) == ReplaceAll(a, c, to) + ReplaceAll(b, c, to)
  {
    if a == "" {
      assert a + b == b;
    } else {
      assert (a + b)[1..] == a[1..] + b;
      ReplaceAllConcat(a[1..], b, c, to);
    }
  }

  lemma ReplaceOne(x: char, c: char, to: string)
    ensures ReplaceAll([x], c, to) == if x == c then to else [x]
  {
    assert [x][1..] == "" && to + "" == to;
  }

  lemma ReplaceTwo(x: char, y: char, c: char, to: string)
    ensures ReplaceAll([x, y], c, to) == (if x == c then to else [x]) + (if y == c then to else [y])
  {
    assert [x, y] == [x] + [y];
    ReplaceAllConcat([x], [y], c, to);
    ReplaceOne(x, c, to);
    ReplaceOne(y, c, to);
  }

  /** The three passes on one character are the one-character escape. */
  lemma PassesOnChar(c: char)
    ensures EscapeLabel([c]) == EscapeChar(c)
  {
    ReplaceOne(c, '\\', "\\\\");
    if c == '\\' {
      ReplaceTwo('\\', '\\', '"', "\\\"");
      ReplaceTwo('\\', '\\', '\n', "\\n");
    } else {
      ReplaceOne(c, '"', "\\\"");
      if c == '"' {
        ReplaceTwo('\\', '"', '\n', "\\n");
      } else {
        ReplaceOne(c, '\n', "\\n");
      }
    }
  }

  /** The three passes equal one pass that escapes each character by itself. */
  lemma {:induction false} ThreePassesAreOne(v: string)
    ensures EscapeLabel(v) == EscapeEach(v)
  {
    if v != "" {
      ThreePassesAreOne(v[1..]);
      assert v == [v[0]] + v[1..];
      EscapeConcat([v[0]], v[1..]);
      PassesOnChar(v[0]);
    }
  }

  lemma EscapeConcat(a: string, b: string)
    ensures EscapeLabel(a + b) == EscapeLabel(a) + EscapeLabel(b)
  {
    ReplaceAllConcat(a, b, '\\', "\\\\");
    var a1, b1 := ReplaceAll(a, '\\', "\\\\"), ReplaceAll(b, '\\', "\\\\");
    ReplaceAllConcat(a1, b1, '"', "\\\"");
    ReplaceAllConcat(ReplaceAll(a1, '"', "\\\""), ReplaceAll(b1, '"', "\\\""), '\n', "\\n");
  }

  datatype Scan = Malformed | Label(value: string)

  /** Reading an escaped label value as the format defines it: a backslash introduces \\, \" or \n; a raw
      quote or newline, or any other escape, is malformed. */
  function ReadLabel(s: string): Scan {
    if s == "" then Label("")
    else if s[0] == '"' || s[0] == '\n' then Malformed
    else if s[0] == '\\' then
      if |s| == 1 || s[1] !in {'\\', '"', 'n'} then Malformed else
      match ReadLabel(s[2..])
      case Malformed => Malformed
      case Label(rest) => Label([if s[1] == 'n' then '\n' else s[1]] + rest)
    else
      match ReadLabel(s[1..])
      case Malformed => Malformed
      case Label(rest) => Label([s[0]] + rest)
  }

  /** Reading takes one escaped character off the front. */
  lemma ReadOneMore(c: char, rest: string, value: string)
    requires ReadLabel(rest) == Label(value)
    ensures ReadLabel(EscapeChar(c) + rest) == Label([c] + value)
  {
    var s := EscapeChar(c) + rest;
    if c in {'\\', '"', '\n'} {
      assert s[0] == '\\' && s[1] in {'\\', '"', 'n'};
      assert s[2..] == rest;
    } else {
      assert s[0] == c && s[1..] == rest;
    }
  }

  lemma {:induction false} ReadEscaped(v: string)
    ensures ReadLabel(EscapeEach(v)) == Label(v)
  {
    if v != "" {
      ReadEscaped(v[1..]);
      ReadOneMore(v[0], EscapeEach(v[1..]), v[1..]);
      assert [v[0]] + v[1..] == v;
    }
  }

  /** An escaped label value is well formed (no raw newline, no unescaped quote) and reads back as the value. */
  lemma EscapeLabelRoundTrip(v: string)
    ensures ReadLabel(EscapeLabel(v)) == Label(v)
  {
    ThreePassesAreOne(v);
    ReadEscaped(v);
  }

  // ----- series keys -----

  function Join(parts: seq<string>): string {
    if parts == [] then "" else if |parts| == 1 then parts[0] else parts[0] + "," + Join(parts[1..])
  }

  function KeyParts(names: seq<string>, values: seq<string>): seq<string>
    requires |names| == |values|
  {
    seq(|names|, i requires 0 <= i < |names| => names[i] + "=" + values[i])
  }

  function LabelPairs(names: seq<string>, values: seq<string>): seq<string>
    requires |names| == |values|
  {
    seq(|names|, i requires 0 <= i < |names| => names[i] + "=\"" + EscapeLabel(values[i]) + "\"")
  }

  function SeriesKey(names: seq<string>, values: seq<string>): string
    requires |names| == |values|
  {
    Join(KeyParts(names, values))
  }

  predicate CommaFree(s: string) {
    ',' !in s
  }

  const HTTP_LABELS := ["method", "route", "status"]

  /** The labels of one handled request; the status is written in decimal. */
  datatype HTTPLabels = HTTPLabels(method_: string, route: string, status: string)

  function HTTPKey(t: HTTPLabels): string {
    SeriesKey(HTTP_LABELS, [t.method_, t.route, t.status])
  }

  const SEPARATOR := ",route="

  /** The longer method is the shorter one, a separator, and anything. */
  ghost predicate Extends(longer: string, shorter: string) {
    exists rest :: longer == shorter + (SEPARATOR + rest)
  }

  ghost predicate HoldsSeparator(m: string) {
    exists head :: Extends(m, head)
  }

  /** The status is a decimal number, so it holds no comma. The method must not hold the separator. */
  ghost predicate WellFormed(t: HTTPLabels) {
    !HoldsSeparator(t.method_) && CommaFree(t.status)
  }

  /** A method that is a token (sections 5.6.2 and 9.1 of RFC 9110) has no comma, and so no separator. */
  lemma SeparatorHoldsComma(m: string)
    requires HoldsSeparator(m)
    ensures !CommaFree(m)
  {
    var head :| Extends(m, head);
    assert m[|head|] == ',';
  }

  lemma HTTPKeyText(t: HTTPLabels)
    ensures HTTPKey(t) == "method=" + t.method_ + (",route=" + t.route + ",status=" + t.status)
  {
    var parts := ["method=" + t.method_, "route=" + t.route, "status=" + t.status];
    assert KeyParts(HTTP_LABELS, [t.method_, t.route, t.status]) == parts by {
      assert "method" + "=" == "method=" && "route" + "=" == "route=" && "status" + "=" == "status=";
    }
    assert parts[1..] == [parts[1], parts[2]];
    assert parts[1..][1..] == [parts[2]];
    assert Join(parts[1..]) == parts[1] + "," + parts[2];
    assert "," + ("route=" + t.route + "," + ("status=" + t.status)) == ",route=" + t.route + ",status=" + t.status;
  }

  lemma NoCommaInTail(a: string, tail: string)
    requires CommaFree(tail)
    ensures var text := a + ("," + tail); text[|a|] == ',' && forall i :: |a| < i < |text| ==> text[i] != ','
  {
    var text := a + ("," + tail);
    forall i | |a| < i < |text|
      ensures text[i] != ','
    {
      assert text[i] == tail[i - |a| - 1];
    }
  }

  /** A comma-free tail is determined by the text: it is what follows the last comma. */
  lemma TailsAgree(a: string, b: string, tail: string, tail': string)
    requires CommaFree(tail) && CommaFree(tail') && a + ("," + tail) == b + ("," + tail')
    ensures a == b && tail == tail'
  {
    var text := a + ("," + tail);
    NoCommaInTail(a, tail);
    NoCommaInTail(b, tail');
    assert |a| == |b|;
    assert a == text[..|a|] && b == text[..|b|];
    assert tail == text[|a| + 1..] && tail' == text[|b| + 1..];
  }

  function MethodAndRoute(t: HTTPLabels): string {
    t.method_ + (SEPARATOR + t.route)
  }

  /** What a key still tells apart: the status, and method and route run together. */
  lemma KeysAgreeExactlyWhen(t: HTTPLabels, u: HTTPLabels)
    requires CommaFree(t.status) && CommaFree(u.status)
    ensures HTTPKey(t) == HTTPKey(u) <==> t.status == u.status && MethodAndRoute(t) == MethodAndRoute(u)
  {
    HTTPKeyText(t);
    HTTPKeyText(u);
    var a, b := "method=" + MethodAndRoute(t), "method=" + MethodAndRoute(u);
    var x, y := "status=" + t.status, "status=" + u.status;
    assert HTTPKey(t) == a + ("," + x) && HTTPKey(u) == b + ("," + y) by {
      assert "," + "status=" == ",status=";
    }
    if HTTPKey(t) == HTTPKey(u) {
      TailsAgree(a, b, x, y);
      assert MethodAndRoute(t) == a[7..] && MethodAndRoute(u) == b[7..];
      assert t.status == x[7..] && u.status == y[7..];
    }
  }

  /** The same text split at two separators: the longer head extends the shorter. A separator cannot overlap
      itself, since only its first character is a comma. */
  lemma LongerHeadExtends(m: string, r: string, m': string, r': string)
    requires m + (SEPARATOR + r) == m' + (SEPARATOR + r') && |m| < |m'|
    ensures Extends(m', m)
  {
    var text := m + (SEPARATOR + r);
    var gap := |m'| - |m|;
    assert text[|m'|] == ',';
    assert forall j :: 0 < j < 7 ==> text[|m| + j] == SEPARATOR[j] != ',';
    assert gap >= 7;
    assert m == text[..|m|] && text[|m|..|m| + 7] == SEPARATOR;
    assert m' == text[..|m'|];
    assert m' == m + (SEPARATOR + text[|m| + 7..|m'|]);
  }

  lemma SameKeySameTriple(t: HTTPLabels, u: HTTPLabels)
    requires CommaFree(t.status) && CommaFree(u.status) && HTTPKey(t) == HTTPKey(u)
    requires !Extends(t.method_, u.method_) && !Extends(u.method_, t.method_)
    ensures t == u
  {
    KeysAgreeExactlyWhen(t, u);
    if |t.method_| < |u.method_| {
      LongerHeadExtends(t.method_, t.route, u.method_, u.route);
    } else if |u.method_| < |t.method_| {
      LongerHeadExtends(u.method_, u.route, t.method_, t.route);
    }
    var text := MethodAndRoute(t);
    assert t.method_ == text[..|t.method_|] && t.route == text[|t.method_| + 7..];
    assert u.method_ == text[..|u.method_|] && u.route == text[|u.method_| + 7..];
  }

  /** Distinct label triples have distinct keys, whatever the routes. */
  lemma HTTPKeyInjective(t: HTTPLabels, u: HTTPLabels)
    requires WellFormed(t) && WellFormed(u) && HTTPKey(t) == HTTPKey(u)
    ensures t == u
  {
    SameKeySameTriple(t, u);
  }

  lemma ExtendingMethodsCollide(m: string, m': string, rest: string)
    requires m' == m + (SEPARATOR + rest)
    ensures var t, u := HTTPLabels(m', "", "200"), HTTPLabels(m, rest + SEPARATOR, "200");
            t != u && HTTPKey(t) == HTTPKey(u)
  {
    var t, u := HTTPLabels(m', "", "200"), HTTPLabels(m, rest + SEPARATOR, "200");
    assert |m'| > |m|;
    assert MethodAndRoute(t) == MethodAndRoute(u);
    KeysAgreeExactlyWhen(t, u);
  }

  /** A concrete collision. */
  lemma CommasCollide()
    ensures var t, u := HTTPLabels("A,route=b", "c", "200"), HTTPLabels("A", "b,route=c", "200");
            t != u && HTTPKey(t) == HTTPKey(u)
  {
    KeysAgreeExactlyWhen(HTTPLabels("A,route=b", "c", "200"), HTTPLabels("A", "b,route=c", "200"));
  }

  /** Triples with one of these methods. */
  ghost predicate Uses(methods: iset<string>, t: HTTPLabels) {
    t.method_ in methods && CommaFree(t.status)
  }

  /** With methods out of a given set, distinct triples never share a key exactly when no method of the set
      extends another one by a separator: the key itself is not escaped. */
  lemma KeysDistinctExactlyWhen(methods: iset<string>)
    ensures (forall t, u :: Uses(methods, t) && Uses(methods, u) && HTTPKey(t) == HTTPKey(u) ==> t == u)
            <==> (forall m, m' :: m in methods && m' in methods ==> !Extends(m', m))
  {
    if m, m' :| m in methods && m' in methods && Extends(m', m) {
      var rest :| m' == m + (SEPARATOR + rest);
      ExtendingMethodsCollide(m, m', rest);
      assert Uses(methods, HTTPLabels(m', "", "200")) && Uses(methods, HTTPLabels(m, rest + SEPARATOR, "200"));
    } else {
      forall t, u | Uses(methods, t) && Uses(methods, u) && HTTPKey(t) == HTTPKey(u)
        ensures t == u
      {
        SameKeySameTriple(t, u);
      }
    }
  }

  lemma {:induction false} FirstSeparator(m: string) returns (head: string, rest: string)
    requires HoldsSeparator(m)
    ensures m == head + (SEPARATOR + rest) && !HoldsSeparator(head)
    decreases |m|
  {
    head :| Extends(m, head);
    rest :| m == head + (SEPARATOR + rest);
    if HoldsSeparator(head) {
      var first, more := FirstSeparator(head);
      assert m == first + (SEPARATOR + (more + SEPARATOR + rest));
      head, rest := first, more + SEPARATOR + rest;
    }
  }

  /** Of a single triple: its key is also that of some other, well-formed triple exactly when its method holds
      the separator. */
  lemma SharesKeyExactlyWhen(t: HTTPLabels)
    requires CommaFree(t.status)
    ensures (exists u :: u != t && WellFormed(u) && HTTPKey(u) == HTTPKey(t)) <==> HoldsSeparator(t.method_)
  {
    if HoldsSeparator(t.method_) {
      var head, rest := FirstSeparator(t.method_);
      var u := HTTPLabels(head, rest + SEPARATOR + t.route, t.status);
      assert |head| < |t.method_|;
      assert MethodAndRoute(u) == MethodAndRoute(t);
      KeysAgreeExactlyWhen(t, u);
      assert u != t && WellFormed(u) && HTTPKey(u) == HTTPKey(t);
    } else {
      forall u | WellFormed(u) && HTTPKey(u) == HTTPKey(t)
        ensures u == t
      {
        HTTPKeyInjective(t, u);
      }
    }
  }

  // ----- counting -----

  datatype Sample = Sample(labels: seq<string>, value: int)

  class Metric {
    const labelNames: seq<string>
    var series: map<string, Sample>

    constructor (labelNames: seq<string>)
      ensures this.labelNames == labelNames && series == map[]
    {
      this.labelNames, series := labelNames, map[];
    }

    /** Selects the sample for the given values, creating it if it does not exist yet. Any other number of
        values than label names panics. */
    method WithLabelValues(values: seq<string>) returns (key: string)
      requires |values| == |labelNames|
      modifies this
      ensures key == SeriesKey(labelNames, values)
      ensures series == if key in old(series) then old(series)
                        else old(series)[key := Sample(LabelPairs(labelNames, values), 0)]
    {
      var kv, keyParts := [], [];
      var i := 0;
      while i < |values|
        invariant 0 <= i <= |values|
        invariant kv == LabelPairs(labelNames, values)[..i]
        invariant keyParts == KeyParts(labelNames, values)[..i]
      {
        kv := kv + [labelNames[i] + "=\"" + EscapeLabel(values[i]) + "\""];
        keyParts := keyParts + [labelNames[i] + "=" + values[i]];
        i := i + 1;
      }
      assert kv == LabelPairs(labelNames, values) && keyParts == KeyParts(labelNames, values);
      key := Join(keyParts);
      if key !in series {
        series := series[key := Sample(kv, 0)];
      }
    }

    method Add(key: string, delta: int)
      requires key in series
      modifies this
      ensures series == old(series)[key := old(series)[key].(value := old(series)[key].value + delta)]
    {
      series := series[key := series[key].(value := series[key].value + delta)];
    }
  }

  /** The request counter after some requests, from empty: select the sample, add one. */
  function Counted(requests: seq<HTTPLabels>): map<string, Sample> {
    if requests == [] then map[] else
    var t := requests[|requests| - 1];
    var before := Counted(requests[..|requests| - 1]);
    var key := HTTPKey(t);
    var sample := if key in before then before[key]
                  else Sample(LabelPairs(HTTP_LABELS, [t.method_, t.route, t.status]), 0);
    before[key := sample.(value := sample.value + 1)]
  }

  /** The middleware's counter, request by request. */
  method CountRequests(counter: Metric, requests: seq<HTTPLabels>)
    requires counter.labelNames == HTTP_LABELS && counter.series == map[]
    modifies counter
    ensures counter.series == Counted(requests)
  {
    var i := 0;
    assert requests[..0] == [];
    while i < |requests|
      invariant 0 <= i <= |requests|
      invariant counter.series == Counted(requests[..i])
    {
      var t := requests[i];
      assert requests[..i + 1][..i] == requests[..i];
      var key := counter.WithLabelValues([t.method_, t.route, t.status]);
      counter.Add(key, 1);
      i := i + 1;
    }
    assert requests[..|requests|] == requests;
  }

  /** The labels of a sample, written out. */
  lemma HTTPLabelText(t: HTTPLabels)
    ensures LabelPairs(HTTP_LABELS, [t.method_, t.route, t.status])
         == ["method=\"" + EscapeLabel(t.method_) + "\"", "route=\"" + EscapeLabel(t.route) + "\"",
             "status=\"" + EscapeLabel(t.status) + "\""]
  {
    assert "method" + "=\"" == "method=\"" && "route" + "=\"" == "route=\"" && "status" + "=\"" == "status=\"";
  }

  /** After any requests, each triple's sample counts exactly that triple's requests, under labels that read
      back as the triple: no two triples share a sample. */
  lemma {:induction false} SamplesCountTheirTriple(requests: seq<HTTPLabels>, t: HTTPLabels)
    requires WellFormed(t) && forall i :: 0 <= i < |requests| ==> WellFormed(requests[i])
    ensures var series := Counted(requests);
            && (HTTPKey(t) in series <==> t in requests)
            && (t in requests ==>
                  && series[HTTPKey(t)].value == multiset(requests)[t]
                  && series[HTTPKey(t)].labels
                     == ["method=\"" + EscapeLabel(t.method_) + "\"", "route=\"" + EscapeLabel(t.route) + "\"",
                         "status=\"" + EscapeLabel(t.status) + "\""])
  {
    if requests != [] {
      var n := |requests| - 1;
      SamplesCountTheirTriple(requests[..n], t);
      HTTPLabelText(requests[n]);
      assert requests == requests[..n] + [requests[n]];
      if HTTPKey(requests[n]) == HTTPKey(t) {
        HTTPKeyInjective(requests[n], t);
      }
    }
  }
}
