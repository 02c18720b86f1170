/** URLs of the form protocol://host[:port][?key=value&...]: the object, its printer and its parser. */
module NetUrls {
  import opened Options

  datatype Url = Url(protocol: string, host: string, port: int, params: map<string, string>)

  const BLANK: Url := Url("", "", 0, map[])

  /** parse returns true, or returns false, or lets stoi's exception escape. */
  datatype Outcome = Parsed | NotAUrl | BadPort

  // ---------------------------------------------------------------- strings and numbers

  predicate OccursAt(s: string, pattern: string, i: nat) {
    i + |pattern| <= |s| && s[i..i + |pattern|] == pattern
  }

  /** std::string::find: the first occurrence at or behind from. */
  function Find(s: string, pattern: string, from: nat): (r: Option<nat>)
    ensures r.Some? ==> from <= r.value && OccursAt(s, pattern, r.value)
    ensures forall i: nat :: from <= i && OccursAt(s, pattern, i) ==> r.Some? && r.value <= i
    decreases |s| - from
  {
    if from + |pattern| > |s| then None
    else if s[from..from + |pattern|] == pattern then Some(from)
    else Find(s, pattern, from + 1)
  }

  predicate IsDigit(c: char) {
    '0' <= c <= '9'
  }

  predicate IsSpace(c: char) {
    c == ' ' || '\t' <= c <= '\r'
  }

  /** The number that the leading digits of s continue from acc. */
  function Digits(s: string, acc: nat): nat {
    if s == [] || !IsDigit(s[0]) then acc else Digits(s[1..], 10 * acc + (s[0] - '0') as nat)
  }

  function SkipSpace(s: string): string {
    if s == [] || !IsSpace(s[0]) then s else SkipSpace(s[1..])
  }

  /** std::stoi: blanks, a sign, at least one digit, and whatever follows is ignored. */
  function Stoi(s: string): Option<int> {
    var t := SkipSpace(s);
    var negative := t != [] && t[0] == '-';
    var u := if t != [] && (t[0] == '-' || t[0] == '+') then t[1..] else t;
    if u == [] || !IsDigit(u[0]) then None
    else
      var magnitude: int := Digits(u, 0);
      var n := if negative then -magnitude else magnitude;
      if -0x8000_0000 <= n < 0x8000_0000 then Some(n) else None
  }

  /** std::to_string. */
  function ToString(n: nat): (s: string)
    ensures s != [] && forall c :: c in s ==> IsDigit(c)
  {
    var last := [('0' as int + n % 10) as char];
    if n < 10 then last else ToString(n / 10) + last
  }

  lemma {:induction false} DigitsConcat(a: string, b: string, acc: nat)
    requires forall c :: c in a ==> IsDigit(c)
    ensures Digits(a + b, acc) == Digits(b, Digits(a, acc))
    decreases |a|
  {
    if a == [] {
      assert a + b == b;
    } else {
      assert (a + b)[1..] == a[1..] + b && IsDigit(a[0]);
      DigitsConcat(a[1..], b, 10 * acc + (a[0] - '0') as nat);
    }
  }

  lemma {:induction false} DigitsOfToString(n: nat)
    ensures Digits(ToString(n), 0) == n
    decreases n
  {
    var last := [('0' as int + n % 10) as char];
    if n >= 10 {
      DigitsOfToString(n / 10);
      DigitsConcat(ToString(n / 10), last, 0);
    }
    assert forall acc: nat :: Digits(last, acc) == 10 * acc + n % 10 by {
      assert last[1..] == [];
    }
  }

  lemma StoiOfToString(n: nat)
    requires n < 0x8000_0000
    ensures Stoi(ToString(n)) == Some(n)
  {
    assert IsDigit(ToString(n)[0]);
    DigitsOfToString(n);
  }

  // ---------------------------------------------------------------- printing and parsing as functions

  function EncodeParams(order: seq<string>, params: map<string, string>): string
    requires forall k :: k in order ==> k in params
  {
    if order == [] then []
    else (order[0] + "=" + params[order[0]]) + "&" + EncodeParams(order[1..], params)
  }

  function EncodePort(port: int): string {
    if port > 0 then ":" + ToString(port) else ""
  }

  /** The printed form; order is the order in which the unordered map is iterated. */
  function Encode(u: Url, order: seq<string>): string
    requires forall k :: k in order ==> k in u.params
  {
    u.protocol + "://" + u.host + EncodePort(u.port) + EncodeQuery(u, order)
  }

  function EncodeQuery(u: Url, order: seq<string>): string
    requires forall k :: k in order ==> k in u.params
  {
    if u.params != map[] then "?" + EncodeParams(order, u.params) else ""
  }

  /** The parameter loop, from any point of it to the end. */
  function ParseParams(s: string, isKey: bool, key: string, value: string, params: map<string, string>)
    : map<string, string>
  {
    if s == [] then (if key != [] then params[key := value] else params)
    else if s[0] == '=' then ParseParams(s[1..], !isKey, key, value, params)
    else if s[0] == '&' then ParseParams(s[1..], !isKey, "", "", params[key := value])
    else if isKey then ParseParams(s[1..], isKey, key + [s[0]], value, params)
    else ParseParams(s[1..], isKey, key, value + [s[0]], params)
  }

  /** The part between "://" and '?', as host and port. */
  function ParseHost(protocol: string, hostInfo: string): (Outcome, Url) {
    match Find(hostInfo, ":", 0)
    case None => (Parsed, Url(protocol, hostInfo, 0, map[]))
    case Some(c) =>
      var host, p := hostInfo[..c], hostInfo[c + 1..];
      if p == [] then (Parsed, Url(protocol, host, 0, map[]))
      else match Stoi(p)
           case None => (BadPort, Url(protocol, host, 0, map[]))
           case Some(n) => (Parsed, Url(protocol, host, n % 65536, map[]))   // the cast to uint16_t
  }

  /** Where the parameters begin: at the first '?' behind "://", or at the end. */
  function QueryStart(channel: string, pos: nat): (end: nat)
    requires OccursAt(channel, "://", pos)
    ensures pos + 3 <= end <= |channel|
    ensures '?' !in channel[pos + 3..end]
    ensures end < |channel| ==> channel[end] == '?'
  {
    var q := Find(channel, "?", pos + 2);
    var end := if q.Some? then q.value else |channel|;
    assert channel[pos..pos + 3][2] == channel[pos + 2] == '/';
    assert end < |channel| ==> channel[end..end + 1][0] == channel[end];
    assert forall i :: pos + 2 <= i < end ==> channel[i] != '?' by {
      forall i: nat | pos + 2 <= i < end ensures channel[i] != '?' {
        assert channel[i..i + 1] == [channel[i]];
        assert !OccursAt(channel, "?", i);
      }
    }
    end
  }

  /** The parse of a URL whose "://" is at pos and whose parameters begin at end. */
  function ParseAt(channel: string, pos: nat, end: nat): (Outcome, Url)
    requires pos + 3 <= end <= |channel|
  {
    var (outcome, u) := ParseHost(channel[..pos], channel[pos + 3..end]);
    if outcome.BadPort? || end == |channel| then (outcome, u)
    else (outcome, u.(params := ParseParams(channel[end + 1..], true, "", "", map[])))
  }

  function Parse(channel: string): (Outcome, Url) {
    match Find(channel, "://", 0)
    case None => (NotAUrl, BLANK)
    case Some(pos) => ParseAt(channel, pos, QueryStart(channel, pos))
  }

  // ---------------------------------------------------------------- the object

  class NetUrl {
    var protocol: string
    var host: string
    var port: int
    var params: map<string, string>

    function Value(): Url
      reads this
    {
      Url(protocol, host, port, params)
    }

    constructor ()
      ensures Value() == BLANK
    {
      protocol, host, port, params := "", "", 0, map[];
    }

    /** Construction from a string: there is no object when stoi's exception escapes. */
    static method FromString(url: string) returns (u: NetUrl?)
      ensures u == null <==> Parse(url).0.BadPort?
      ensures u != null ==> fresh(u) && u.Value() == Parse(url).1
    {
      u := new NetUrl();
      var outcome := u.ParseUrl(url);
      if outcome.BadPort? { return null; }
    }

    method Reset()
      modifies this
      ensures Value() == BLANK
    {
      params := map[];
      protocol := "";
      host := "";
      port := 0;
    }

    method ParseUrl(channel: string) returns (outcome: Outcome)
      modifies this
      ensures (outcome, Value()) == Parse(channel)
    {
      Reset();
      var pos := Find(channel, "://", 0);
      if pos.None? { return NotAUrl; }
      protocol := channel[..pos.value];
      var end := QueryStart(channel, pos.value);
      outcome := ParseHostInfo(channel[pos.value + 3..end]);
      if outcome == Parsed && end < |channel| {
        ParseQuery(channel, end);
      }
    }

    method ParseHostInfo(hostInfo: string) returns (outcome: Outcome)
      requires port == 0 && params == map[]
      modifies this`host, this`port
      ensures (outcome, Value()) == ParseHost(protocol, hostInfo)
    {
      var c := Find(hostInfo, ":", 0);
      if c.Some? {
        host := hostInfo[..c.value];
        var p := hostInfo[c.value + 1..];
        if p != [] {
          var n := Stoi(p);
          if n.None? { return BadPort; }
          port := n.value % 65536;
        }
      } else {
        host := hostInfo;
      }
      return Parsed;
    }

    /** The parameter loop, which starts behind the '?'. */
    method ParseQuery(channel: string, end: nat)
      requires end < |channel| && params == map[]
      modifies this`params
      ensures params == ParseParams(channel[end + 1..], true, "", "", map[])
    {
      var isKey, key, value := true, "", "";
      var i := end + 1;
      while i < |channel|
        invariant end < i <= |channel|
        invariant ParseParams(channel[i..], isKey, key, value, params)
               == ParseParams(channel[end + 1..], true, "", "", map[])
      {
        assert channel[i..][1..] == channel[i + 1..];
        if channel[i] == '=' {
          isKey := !isKey;
        } else if channel[i] == '&' {
          params := params[key := value];
          key, value := "", "";
          isKey := !isKey;
        } else {
          if isKey {
            key := key + [channel[i]];
          } else {
            value := value + [channel[i]];
          }
        }
        i := i + 1;
      }
      if key != [] {
        params := params[key := value];
      }
    }

    method EncodeUrl(order: seq<string>) returns (url: string)
      requires forall k :: k in order ==> k in params
      ensures url == Encode(Value(), order)
    {
      url := protocol + "://" + host + (if port > 0 then ":" + ToString(port) else "");
      ghost var front := url;
      if params != map[] {
        url := url + "?";
        url := AppendParams(url, order);
        assert url == front + ("?" + EncodeParams(order, params));
      } else {
        assert front == front + "";
      }
    }

    /** The printing loop over the parameters. */
    method AppendParams(front: string, order: seq<string>) returns (url: string)
      requires forall k :: k in order ==> k in params
      ensures url == front + EncodeParams(order, params)
    {
      url := front;
      var i := 0;
      while i < |order|
        invariant 0 <= i <= |order|
        invariant front + EncodeParams(order, params) == url + EncodeParams(order[i..], params)
      {
        var pair := (order[i] + "=" + params[order[i]]) + "&";
        assert order[i..][1..] == order[i + 1..];
        assert EncodeParams(order[i..], params) == pair + EncodeParams(order[i + 1..], params);
        url := url + pair;
        i := i + 1;
      }
      assert url + [] == url;
    }
  }

  // ---------------------------------------------------------------- round trip

  predicate Plain(s: string) {
    '=' !in s && '&' !in s
  }

  /** What the syntax can carry. */
  ghost predicate Clean(u: Url) {
    && (forall i: nat :: !OccursAt(u.protocol, "://", i))
    && ':' !in u.host && '?' !in u.host
    && forall k :: k in u.params ==> Plain(k) && Plain(u.params[k])
  }

  /** order lists the keys of params. */
  predicate Lists(order: seq<string>, params: map<string, string>) {
    (forall k :: k in order ==> k in params) && (forall k :: k in params ==> k in order)
  }

  lemma {:induction false} ReadKey(w: string, rest: string, key: string, value: string, acc: map<string, string>)
    requires Plain(w)
    ensures ParseParams(w + rest, true, key, value, acc) == ParseParams(rest, true, key + w, value, acc)
    decreases |w|
  {
    if w == [] {
      assert w + rest == rest && key + w == key;
    } else {
      assert (w + rest)[1..] == w[1..] + rest;
      ReadKey(w[1..], rest, key + [w[0]], value, acc);
      assert key + [w[0]] + w[1..] == key + w;
    }
  }

  lemma {:induction false} ReadValue(w: string, rest: string, key: string, value: string, acc: map<string, string>)
    requires Plain(w)
    ensures ParseParams(w + rest, false, key, value, acc) == ParseParams(rest, false, key, value + w, acc)
    decreases |w|
  {
    if w == [] {
      assert w + rest == rest && value + w == value;
    } else {
      assert (w + rest)[1..] == w[1..] + rest;
      ReadValue(w[1..], rest, key, value + [w[0]], acc);
      assert value + [w[0]] + w[1..] == value + w;
    }
  }

  lemma ReadPair(k: string, v: string, rest: string, acc: map<string, string>)
    requires Plain(k) && Plain(v)
    ensures ParseParams((k + "=" + v) + "&" + rest, true, "", "", acc) == ParseParams(rest, true, "", "", acc[k := v])
  {
    var tail := "=" + (v + ("&" + rest));
    assert (k + "=" + v) + "&" + rest == k + tail;
    ReadKey(k, tail, "", "", acc);
    assert "" + k == k && tail[1..] == v + ("&" + rest);
    ReadValue(v, "&" + rest, k, "", acc);
    assert "" + v == v && ("&" + rest)[1..] == rest;
  }

  lemma {:induction false} ReadAll(order: seq<string>, params: map<string, string>, acc: map<string, string>)
    requires forall k :: k in order ==> k in params && Plain(k) && Plain(params[k])
    ensures ParseParams(EncodeParams(order, params), true, "", "", acc)
         == acc + map k | k in params && k in order :: params[k]
    decreases |order|
  {
    if order == [] {
      assert acc == acc + map k | k in params && k in order :: params[k];
    } else {
      var k, rest := order[0], order[1..];
      ReadPair(k, params[k], EncodeParams(rest, params), acc);
      ReadAll(rest, params, acc[k := params[k]]);
      assert acc[k := params[k]] + (map j | j in params && j in rest :: params[j])
          == acc + (map j | j in params && j in order :: params[j]);
    }
  }

  lemma FindProtocolEnd(protocol: string, rest: string)
    requires forall i: nat :: !OccursAt(protocol, "://", i)
    ensures Find(protocol + "://" + rest, "://", 0) == Some(|protocol|)
  {
    var s, n := protocol + "://" + rest, |protocol|;
    assert s[n..n + 3] == "://";
    assert OccursAt(s, "://", n);
    forall i: nat | i < n ensures !OccursAt(s, "://", i) {
      if i + 3 <= n {
        assert s[i..i + 3] == protocol[i..i + 3];
        assert !OccursAt(protocol, "://", i);
      } else {
        assert s[i..i + 3][n - i] == s[n] == ':';
      }
    }
  }

  lemma FindChar(s: string, c: char, from: nat, i: nat)
    requires from <= i < |s| && s[i] == c && c !in s[from..i]
    ensures Find(s, [c], from) == Some(i)
  {
    assert s[i..i + 1] == [c];
    assert OccursAt(s, [c], i);
    forall j: nat | from <= j < i ensures !OccursAt(s, [c], j) {
      assert s[j..j + 1][0] == s[j] == s[from..i][j - from];
    }
  }

  lemma FindNoChar(s: string, c: char, from: nat)
    requires from <= |s| && c !in s[from..]
    ensures Find(s, [c], from) == None
  {
    forall j: nat | from <= j < |s| ensures !OccursAt(s, [c], j) {
      assert s[j..j + 1][0] == s[j] == s[from..][j - from];
    }
  }

  lemma HostRoundTrip(u: Url)
    requires ':' !in u.host && 0 <= u.port < 65536
    ensures ParseHost(u.protocol, u.host + EncodePort(u.port)) == (Parsed, u.(params := map[]))
  {
    if u.port > 0 {
      var digits := ToString(u.port);
      var info := u.host + (":" + digits);
      assert info[..|u.host|] == u.host;
      FindChar(info, ':', 0, |u.host|);
      assert info[|u.host| + 1..] == digits;
      StoiOfToString(u.port);
    } else {
      var info := u.host + "";
      assert info == u.host && info[0..] == info;
      FindNoChar(info, ':', 0);
    }
  }

  lemma QueryStartOf(channel: string, pos: nat, end: nat)
    requires OccursAt(channel, "://", pos) && pos + 3 <= end <= |channel|
    requires '?' !in channel[pos + 3..end] && (end < |channel| ==> channel[end] == '?')
    ensures QueryStart(channel, pos) == end
  {
    var e := QueryStart(channel, pos);
    assert forall i :: pos + 3 <= i < end ==> channel[i] == channel[pos + 3..end][i - (pos + 3)] != '?';
    assert forall i :: pos + 3 <= i < e ==> channel[i] == channel[pos + 3..e][i - (pos + 3)] != '?';
  }

  /** How parse takes a URL apart. */
  lemma ParseParts(protocol: string, info: string, query: string)
    requires forall i: nat :: !OccursAt(protocol, "://", i)
    requires '?' !in info && (query != [] ==> query[0] == '?')
    ensures var s := protocol + "://" + (info + query);
            var end := |protocol| + 3 + |info|;
            end <= |s| && Parse(s) == ParseAt(s, |protocol|, end)
  {
    var s, n := protocol + "://" + (info + query), |protocol|;
    FindProtocolEnd(protocol, info + query);
    CutOut(protocol, info, query);
    QueryStartOf(s, n, n + 3 + |info|);
  }

  lemma CutOut(protocol: string, info: string, query: string)
    ensures var s := protocol + "://" + (info + query);
            var end := |protocol| + 3 + |info|;
            && s[..|protocol|] == protocol && s[|protocol| + 3..end] == info
            && OccursAt(s, "://", |protocol|) && |s| == end + |query|
            && (query != [] ==> s[end] == query[0] && s[end + 1..] == query[1..])
  {
    var s := protocol + "://" + (info + query);
    assert s[|protocol|..|protocol| + 3] == "://";
  }

  lemma CleanRoundTrip(u: Url, order: seq<string>)
    requires 0 <= u.port < 65536 && Lists(order, u.params) && Clean(u)
    ensures Parse(Encode(u, order)) == (Parsed, u)
  {
    var info := u.host + EncodePort(u.port);
    var query := EncodeQuery(u, order);
    EncodeParts(u, order);
    ParseParts(u.protocol, info, query);
    CutOut(u.protocol, info, query);
    HostRoundTrip(u);
    if u.params != map[] {
      QueryRoundTrip(u, order);
    }
  }

  lemma QueryRoundTrip(u: Url, order: seq<string>)
    requires Lists(order, u.params) && u.params != map[] && forall k :: k in u.params ==> Plain(k) && Plain(u.params[k])
    ensures ParseParams(EncodeQuery(u, order)[1..], true, "", "", map[]) == u.params
  {
    assert EncodeQuery(u, order)[1..] == EncodeParams(order, u.params);
    ReadAll(order, u.params, map[]);
    assert map[] + (map k | k in u.params && k in order :: u.params[k]) == u.params;
  }

  lemma EncodeParts(u: Url, order: seq<string>)
    requires forall k :: k in order ==> k in u.params
    ensures Encode(u, order) == u.protocol + "://" + ((u.host + EncodePort(u.port)) + EncodeQuery(u, order))
  {
  }

  lemma {:induction false} ParamsComeOutClean(s: string, isKey: bool, key: string, value: string,
                                              params: map<string, string>)
    requires Plain(key) && Plain(value) && forall k :: k in params ==> Plain(k) && Plain(params[k])
    ensures var r := ParseParams(s, isKey, key, value, params); forall k :: k in r ==> Plain(k) && Plain(r[k])
    decreases |s|
  {
    if s == [] {
    } else if s[0] == '=' {
      ParamsComeOutClean(s[1..], !isKey, key, value, params);
    } else if s[0] == '&' {
      ParamsComeOutClean(s[1..], !isKey, "", "", params[key := value]);
    } else if isKey {
      ParamsComeOutClean(s[1..], isKey, key + [s[0]], value, params);
    } else {
      ParamsComeOutClean(s[1..], isKey, key, value + [s[0]], params);
    }
  }

  /** Whatever is parsed is clean, and its port is a 16-bit number. */
  lemma ParsedIsClean(channel: string)
    requires Parse(channel).0 == Parsed
    ensures Clean(Parse(channel).1) && 0 <= Parse(channel).1.port < 65536
  {
    var pos := Find(channel, "://", 0).value;
    var end := QueryStart(channel, pos);
    HostHasNoColon(channel[..pos], channel[pos + 3..end]);
    NoEarlierProtocolEnd(channel, pos);
    if end < |channel| {
      ParamsComeOutClean(channel[end + 1..], true, "", "", map[]);
    }
  }

  lemma NoEarlierProtocolEnd(channel: string, pos: nat)
    requires Find(channel, "://", 0) == Some(pos)
    ensures forall i: nat :: !OccursAt(channel[..pos], "://", i)
  {
    forall i: nat ensures !OccursAt(channel[..pos], "://", i) {
      if i + 3 <= pos {
        assert channel[i..i + 3] == channel[..pos][i..i + 3];
        assert !OccursAt(channel, "://", i);
      }
    }
  }

  lemma HostHasNoColon(protocol: string, info: string)
    ensures var u := ParseHost(protocol, info).1;
            ':' !in u.host && u.host <= info && u.protocol == protocol && u.params == map[] && 0 <= u.port < 65536
  {
    var u := ParseHost(protocol, info).1;
    forall j | 0 <= j < |u.host| ensures u.host[j] != ':' {
      assert info[j..j + 1] == [u.host[j]];
      assert Find(info, ":", 0).Some? ==> !OccursAt(info, ":", j);
      assert Find(info, ":", 0).None? ==> !OccursAt(info, ":", j);
    }
  }

  /** parse undoes encode for exactly the clean URLs, in whatever order the parameters are printed. */
  lemma RoundTripExactly(u: Url, order: seq<string>)
    requires 0 <= u.port < 65536 && Lists(order, u.params)
    ensures Parse(Encode(u, order)) == (Parsed, u) <==> Clean(u)
  {
    if Clean(u) {
      CleanRoundTrip(u, order);
    } else if Parse(Encode(u, order)) == (Parsed, u) {
      ParsedIsClean(Encode(u, order));
    }
  }

  /** Printing what was parsed and parsing it again changes nothing. */
  lemma ReparseIsStable(channel: string, order: seq<string>)
    requires Parse(channel).0 == Parsed && Lists(order, Parse(channel).1.params)
    ensures Parse(Encode(Parse(channel).1, order)) == Parse(channel)
  {
    ParsedIsClean(channel);
    CleanRoundTrip(Parse(channel).1, order);
  }
}
