/** What the URL parser makes of text that the printer does not produce. */
module NetUrlReading {
  import opened Options
  import opened Sequences
  import opened NetUrls

  // ---------------------------------------------------------------- parameters in general

  /** Pieces of text joined by '='. */
  function Joined(pieces: seq<string>): string
    requires pieces != []
  {
    if |pieces| == 1 then pieces[0] else pieces[0] + "=" + Joined(pieces[1..])
  }

  /** The pieces at every other place, from the first one on or from the second one on. */
  function EveryOther(pieces: seq<string>, take: bool): string {
    if pieces == [] then [] else (if take then pieces[0] else []) + EveryOther(pieces[1..], !take)
  }

  /** Each '=' changes sides: the pieces between them go to key and value in turn. */
  lemma {:induction false} PiecesRead(pieces: seq<string>, rest: string, isKey: bool, key: string, value: string,
                                      acc: map<string, string>)
    requires pieces != [] && forall p :: p in pieces ==> Plain(p)
    ensures ParseParams(Joined(pieces) + rest, isKey, key, value, acc)
         == ParseParams(rest, isKey == (|pieces| % 2 == 1),
                        key + EveryOther(pieces, isKey), value + EveryOther(pieces, !isKey), acc)
    decreases |pieces|
  {
    var p := pieces[0];
    var k, v := if isKey then key + p else key, if isKey then value else value + p;
    if |pieces| == 1 {
      PieceRead(p, rest, isKey, key, value, acc);
      OnePiece(p);
      assert pieces == [p] && key + [] == key && value + [] == value;
    } else {
      var tail := "=" + (Joined(pieces[1..]) + rest);
      assert Joined(pieces) + rest == p + tail;
      PieceRead(p, tail, isKey, key, value, acc);
      assert tail[1..] == Joined(pieces[1..]) + rest;
      PiecesRead(pieces[1..], rest, !isKey, k, v, acc);
      assert key + EveryOther(pieces, isKey) == k + EveryOther(pieces[1..], !isKey);
      assert value + EveryOther(pieces, !isKey) == v + EveryOther(pieces[1..], isKey);
    }
  }

  lemma OnePiece(p: string)
    ensures Joined([p]) == p && EveryOther([p], true) == p && EveryOther([p], false) == ""
  {
    var pieces := [p];
    assert pieces[1..] == [] && p + [] == p;
  }

  lemma TwoPieces(p: string, q: string)
    ensures Joined([p, q]) == p + "=" + q && EveryOther([p, q], true) == p && EveryOther([p, q], false) == q
  {
    var pieces := [p, q];
    assert pieces[1..] == [q];
    OnePiece(q);
    assert p + "" == p;
  }

  lemma PieceRead(p: string, rest: string, isKey: bool, key: string, value: string, acc: map<string, string>)
    requires Plain(p)
    ensures ParseParams(p + rest, isKey, key, value, acc)
         == ParseParams(rest, isKey, if isKey then key + p else key, if isKey then value else value + p, acc)
  {
    if isKey { ReadKey(p, rest, key, value, acc); } else { ReadValue(p, rest, key, value, acc); }
  }

  /** A segment that ends in '&' is stored, whatever its key; the '&' changes sides, as a '=' does. */
  lemma SegmentStored(pieces: seq<string>, more: string, isKey: bool, acc: map<string, string>)
    requires pieces != [] && forall p :: p in pieces ==> Plain(p)
    ensures ParseParams(Joined(pieces) + "&" + more, isKey, "", "", acc)
         == ParseParams(more, isKey == (|pieces| % 2 == 0), "", "",
                        acc[EveryOther(pieces, isKey) := EveryOther(pieces, !isKey)])
  {
    var rest := "&" + more;
    assert Joined(pieces) + "&" + more == Joined(pieces) + rest && rest[1..] == more;
    PiecesRead(pieces, rest, isKey, "", "", acc);
    assert "" + EveryOther(pieces, isKey) == EveryOther(pieces, isKey);
    assert "" + EveryOther(pieces, !isKey) == EveryOther(pieces, !isKey);
  }

  /** The last segment, which no '&' ends, is stored unless its key is empty. */
  lemma LastSegment(pieces: seq<string>, isKey: bool, acc: map<string, string>)
    requires pieces != [] && forall p :: p in pieces ==> Plain(p)
    ensures ParseParams(Joined(pieces), isKey, "", "", acc)
         == if EveryOther(pieces, isKey) != []
           then acc[EveryOther(pieces, isKey) := EveryOther(pieces, !isKey)] else acc
  {
    assert Joined(pieces) + "" == Joined(pieces);
    PiecesRead(pieces, "", isKey, "", "", acc);
    assert "" + EveryOther(pieces, isKey) == EveryOther(pieces, isKey);
    assert "" + EveryOther(pieces, !isKey) == EveryOther(pieces, !isKey);
  }

  /** So a parameter without '=' turns keys and values around behind it. */
  lemma BareKeyTurnsAround(a: string, k: string, v: string)
    requires Plain(a) && Plain(k) && Plain(v)
    ensures ParseParams(a + "&" + (k + "=" + v), true, "", "", map[])
         == if v != "" then map[a := ""][v := k] else map[a := ""]
  {
    SegmentStored([a], k + "=" + v, true, map[]);
    OnePiece(a);
    LastSegment([k, v], false, map[a := ""]);
    TwoPieces(k, v);
  }

  // ---------------------------------------------------------------- the last '&'

  lemma {:induction false} ReadAllThen(order: seq<string>, params: map<string, string>, rest: string,
                                       acc: map<string, string>)
    requires forall k :: k in order ==> k in params && Plain(k) && Plain(params[k])
    ensures ParseParams(EncodeParams(order, params) + rest, true, "", "", acc)
         == ParseParams(rest, true, "", "", acc + map k | k in params && k in order :: params[k])
    decreases |order|
  {
    if order == [] {
      assert EncodeParams(order, params) + rest == rest;
      assert acc == acc + map k | k in params && k in order :: params[k];
    } else {
      var k, tail := order[0], order[1..];
      var more := EncodeParams(tail, params) + rest;
      assert EncodeParams(order, params) + rest == (k + "=" + params[k]) + "&" + more;
      ReadPair(k, params[k], more, acc);
      ReadAllThen(tail, params, rest, acc[k := params[k]]);
      assert acc[k := params[k]] + (map j | j in params && j in tail :: params[j])
          == acc + (map j | j in params && j in order :: params[j]);
    }
  }

  lemma {:induction false} EncodeSnoc(order: seq<string>, params: map<string, string>)
    requires order != [] && forall k :: k in order ==> k in params
    ensures var front, last := order[..|order| - 1], order[|order| - 1];
            EncodeParams(order, params) == EncodeParams(front, params) + (last + "=" + params[last] + "&")
    decreases |order|
  {
    if |order| == 1 {
      assert order[1..] == [] && order[..0] == [];
    } else {
      EncodeSnoc(order[1..], params);
      assert order[1..][..|order| - 2] == order[..|order| - 1][1..];
    }
  }

  /** The printed form without its final '&', as URLs are commonly written. */
  function Unterminated(u: Url, order: seq<string>): string
    requires order != [] && Lists(order, u.params)
  {
    var url := Encode(u, order);
    assert |url| > 0 by { EncodeSnoc(order, u.params); }
    url[..|url| - 1]
  }

  /** Without the final '&' the parser still restores a clean URL if and only if the last key is not empty. */
  lemma UnterminatedRoundTripExactly(u: Url, order: seq<string>)
    requires 0 <= u.port < 65536 && Clean(u) && order != [] && Lists(order, u.params) && Distinct(order)
    ensures Parse(Unterminated(u, order)) == (Parsed, u) <==> order[|order| - 1] != ""
  {
    UnterminatedParts(u, order);
    QueryRead(u, PairsOf(u, order));
    LastPair(u.params, order);
  }

  /** The parameters without the final '&'. */
  function PairsOf(u: Url, order: seq<string>): string
    requires order != [] && Lists(order, u.params)
  {
    var front, last := order[..|order| - 1], order[|order| - 1];
    EncodeParams(front, u.params) + (last + "=" + u.params[last])
  }

  lemma UnterminatedParts(u: Url, order: seq<string>)
    requires order != [] && Lists(order, u.params)
    ensures Unterminated(u, order) == u.protocol + "://" + ((u.host + EncodePort(u.port)) + ("?" + PairsOf(u, order)))
  {
    EncodeSnoc(order, u.params);
    EncodeParts(u, order);
    var url := u.protocol + "://" + ((u.host + EncodePort(u.port)) + ("?" + PairsOf(u, order)));
    assert order[0] in u.params;
    assert Encode(u, order) == url + "&";
  }

  /** With a clean host in front, parsing a URL is reading its parameters. */
  lemma QueryRead(u: Url, pairs: string)
    requires 0 <= u.port < 65536 && Clean(u)
    ensures Parse(u.protocol + "://" + ((u.host + EncodePort(u.port)) + ("?" + pairs)))
         == (Parsed, u.(params := ParseParams(pairs, true, "", "", map[])))
  {
    HostRoundTrip(u);
    NoMark(u);
    ParsedWithQuery(u.protocol, u.host + EncodePort(u.port), pairs, u.(params := map[]));
  }

  lemma NoMark(u: Url)
    requires '?' !in u.host
    ensures '?' !in u.host + EncodePort(u.port)
  {
  }

  lemma ParsedWithQuery(protocol: string, info: string, pairs: string, h: Url)
    requires (forall i: nat :: !OccursAt(protocol, "://", i)) && '?' !in info
      && ParseHost(protocol, info) == (Parsed, h)
    ensures Parse(protocol + "://" + (info + ("?" + pairs)))
         == (Parsed, h.(params := ParseParams(pairs, true, "", "", map[])))
  {
    ParseParts(protocol, info, "?" + pairs);
    CutOut(protocol, info, "?" + pairs);
    assert ("?" + pairs)[1..] == pairs;
  }

  lemma LastPair(params: map<string, string>, order: seq<string>)
    requires order != [] && Lists(order, params) && Distinct(order)
    requires forall k :: k in params ==> Plain(k) && Plain(params[k])
    ensures var front, last := order[..|order| - 1], order[|order| - 1];
            ParseParams(EncodeParams(front, params) + (last + "=" + params[last]), true, "", "", map[]) == params
            <==> last != ""
  {
    var front, last := order[..|order| - 1], order[|order| - 1];
    var v := params[last];
    var acc := map[] + map k | k in params && k in front :: params[k];
    ReadAllThen(front, params, last + "=" + v, map[]);
    LastSegment([last, v], true, acc);
    TwoPieces(last, v);
    AllButLast(params, order, acc);
  }

  lemma AllButLast(params: map<string, string>, order: seq<string>, acc: map<string, string>)
    requires order != [] && Lists(order, params) && Distinct(order)
    requires acc == map[] + map k | k in params && k in order[..|order| - 1] :: params[k]
    ensures var last := order[|order| - 1];
            last !in acc && last in params && acc[last := params[last]] == params
  {
    var front, last := order[..|order| - 1], order[|order| - 1];
    LastIsNew(order);
    forall k ensures k in acc <==> k in params && k != last { FrontOrLast(order, k); }
    AddedBack(params, acc, last);
  }

  lemma FrontOrLast(order: seq<string>, k: string)
    requires order != []
    ensures k in order <==> k in order[..|order| - 1] || k == order[|order| - 1]
  {
    assert order == order[..|order| - 1] + [order[|order| - 1]];
  }

  lemma AddedBack(params: map<string, string>, acc: map<string, string>, last: string)
    requires last in params && (forall k :: k in acc <==> k in params && k != last)
    requires forall k :: k in acc ==> acc[k] == params[k]
    ensures acc[last := params[last]] == params
  {
  }

  lemma LastIsNew(order: seq<string>)
    requires order != [] && Distinct(order)
    ensures order[|order| - 1] !in order[..|order| - 1]
  {
  }

  // ---------------------------------------------------------------- ports and outcomes

  lemma {:induction false} DigitsStop(a: string, junk: string, acc: nat)
    requires (forall c :: c in a ==> IsDigit(c)) && (junk == "" || !IsDigit(junk[0]))
    ensures Digits(a + junk, acc) == Digits(a, acc)
  {
    DigitsConcat(a, junk, acc);
  }

  /** A port may be followed by anything; it is taken modulo 2^16, and refused from 2^31 on. */
  lemma PortRead(protocol: string, host: string, n: nat, junk: string)
    requires ':' !in host && (junk == "" || !IsDigit(junk[0]))
    ensures ParseHost(protocol, host + ":" + (ToString(n) + junk))
         == if n < 0x8000_0000 then (Parsed, Url(protocol, host, n % 65536, map[]))
            else (BadPort, Url(protocol, host, 0, map[]))
  {
    HostAndPort(protocol, host, ToString(n) + junk);
    var p := ToString(n) + junk;
    assert p[0] == ToString(n)[0] && IsDigit(ToString(n)[0]);
    DigitsStop(ToString(n), junk, 0);
    DigitsOfToString(n);
  }

  /** A minus sign counts down from 2^16. */
  lemma NegativePort(protocol: string, host: string, n: int)
    requires ':' !in host && 0 < n <= 0x8000_0000
    ensures ParseHost(protocol, host + ":" + ("-" + ToString(n)))
         == (Parsed, Url(protocol, host, (-n) % 65536, map[]))
  {
    HostAndPort(protocol, host, "-" + ToString(n));
    StoiOfNegative(n);
  }

  lemma StoiOfNegative(n: int)
    requires 0 < n <= 0x8000_0000
    ensures Stoi("-" + ToString(n)) == Some(-n)
  {
    var p := "-" + ToString(n);
    assert SkipSpace(p) == p && p[1..] == ToString(n) && IsDigit(ToString(n)[0]);
    DigitsOfToString(n);
  }

  /** A port is cut off at the first ':', and may be empty. */
  lemma HostAndPort(protocol: string, host: string, p: string)
    requires ':' !in host
    ensures ParseHost(protocol, host + ":" + p)
         == if p == "" then (Parsed, Url(protocol, host, 0, map[]))
            else match Stoi(p)
                 case None => (BadPort, Url(protocol, host, 0, map[]))
                 case Some(n) => (Parsed, Url(protocol, host, n % 65536, map[]))
  {
    var info := host + ":" + p;
    assert info[..|host|] == host && info[|host| + 1..] == p && info[0..|host|] == host;
    FindChar(info, ':', 0, |host|);
  }

  /** A port is refused unless a digit comes first behind blanks and one sign. */
  lemma PortRefused(protocol: string, host: string, p: string)
    requires ':' !in host && p != "" && !IsSpace(p[0]) && p[0] != '-' && p[0] != '+' && !IsDigit(p[0])
    ensures ParseHost(protocol, host + ":" + p) == (BadPort, Url(protocol, host, 0, map[]))
  {
    HostAndPort(protocol, host, p);
  }

  /** Text is no URL exactly when it lacks "://"; then every field is blank. */
  lemma NotAUrlExactly(channel: string)
    ensures Parse(channel).0.NotAUrl? <==> forall i: nat :: !OccursAt(channel, "://", i)
    ensures Parse(channel).0.NotAUrl? ==> Parse(channel).1 == BLANK
  {
    assert Find(channel, "://", 0).None? ==> forall i: nat :: !OccursAt(channel, "://", i);
  }

  // ---------------------------------------------------------------- examples

  lemma Printed()
    ensures Encode(Url("t", "h", 80, map["a" := "1"]), ["a"]) == "t://h:80?a=1&"
  {
    var u := Url("t", "h", 80, map["a" := "1"]);
    OnePair();
    EncodeParts(u, ["a"]);
    assert EncodePort(80) == ":80" by { assert ToString(8) == "8" && ToString(80) == ToString(8) + "0"; }
    assert EncodeQuery(u, ["a"]) == "?a=1&";
  }

  /** Neither port 0 nor an empty map is printed. */
  lemma PrintedPlain(protocol: string, host: string)
    ensures Encode(Url(protocol, host, 0, map[]), []) == protocol + "://" + host
  {
  }

  lemma OnePair()
    ensures EncodeParams(["a"], map["a" := "1"]) == "a=1&"
  {
    var order: seq<string> := ["a"];
    assert order[1..] == [];
  }

  lemma HandWritten()
    ensures Parse("t://h:80?a=1") == (Parsed, Url("t", "h", 80, map["a" := "1"]))
  {
    Printed();
    HandWrittenUrl(Url("t", "h", 80, map["a" := "1"]));
    assert "t://h:80?a=1&" == "t://h:80?a=1" + "&";
  }

  lemma HandWrittenUrl(u: Url)
    requires u.protocol == "t" && u.host == "h" && 0 <= u.port < 65536 && u.params == map["a" := "1"]
    ensures Parse(Unterminated(u, ["a"])) == (Parsed, u)
  {
    assert Clean(u) && Distinct(["a"]) && Lists(["a"], u.params);
    UnterminatedRoundTripExactly(u, ["a"]);
  }
}
