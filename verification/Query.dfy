/** Query strings: percent-encoding (section 2.1 of RFC 3986, with '+' for a space), and the multimap a
    query stands for. A string is a sequence of bytes. */
module Query {
  import opened Rows

  type Byte = c: char | c as int < 256 witness 'a'
  type Text = seq<Byte>

  // ---- QueryEscape and QueryUnescape

  predicate Unreserved(c: Byte) {
    'a' <= c <= 'z' || 'A' <= c <= 'Z' || '0' <= c <= '9' || c == '-' || c == '_' || c == '.' || c == '~'
  }

  function Digit(n: nat): Byte
    requires n < 16
  {
    (if n < 10 then ('0' as int + n) as char else ('A' as int + n - 10) as char)
  }

  predicate IsHex(c: Byte) { '0' <= c <= '9' || 'a' <= c <= 'f' || 'A' <= c <= 'F' }

  function HexValue(c: Byte): (n: nat)
    requires IsHex(c)
    ensures n < 16
  {
    if c <= '9' then c as int - '0' as int
    else if c <= 'F' then c as int - 'A' as int + 10
    else c as int - 'a' as int + 10
  }

  function EscapeByte(c: Byte): (r: Text) {
    if Unreserved(c) then [c]
    else if c == ' ' then ['+']
    else ['%', Digit(c as int / 16), Digit(c as int % 16)]
  }

  function Escape(s: Text): Text {
    if s == [] then [] else EscapeByte(s[0]) + Escape(s[1..])
  }

  /** None for a '%' that two hexadecimal digits do not follow. */
  function Unescape(s: Text): Option<Text> {
    if s == [] then Some([])
    else if s[0] == '%' then
      if |s| < 3 || !IsHex(s[1]) || !IsHex(s[2]) then None else
        match Unescape(s[3..])
        case Some(rest) => Some([(16 * HexValue(s[1]) + HexValue(s[2])) as char] + rest)
        case None => None
    else
      match Unescape(s[1..])
      case Some(rest) => Some([if s[0] == '+' then ' ' else s[0]] + rest)
      case None => None
  }

  lemma DigitValue(n: nat)
    requires n < 16
    ensures IsHex(Digit(n)) && HexValue(Digit(n)) == n
  {}

  /** Unescaping undoes escaping. */
  lemma {:induction false} EscapeRoundTrip(s: Text)
    ensures Unescape(Escape(s)) == Some(s)
  {
    if s != [] {
      var head, rest := EscapeByte(s[0]), Escape(s[1..]);
      EscapeRoundTrip(s[1..]);
      DigitValue(s[0] as int / 16);
      DigitValue(s[0] as int % 16);
      assert (head + rest)[|head|..] == rest;
      assert s == [s[0]] + s[1..];
    }
  }

  // ---- splitting

  /** strings.Cut: what comes before the first `sep`, and what comes after it. */
  function Before(s: Text, sep: Byte): Text {
    if s == [] || s[0] == sep then [] else [s[0]] + Before(s[1..], sep)
  }

  function After(s: Text, sep: Byte): (r: Text)
    ensures s != [] ==> |r| < |s|
  {
    if s == [] then [] else if s[0] == sep then s[1..] else After(s[1..], sep)
  }

  lemma {:induction false} CutAt(a: Text, sep: Byte, b: Text)
    requires sep !in a
    ensures Before(a + [sep] + b, sep) == a && After(a + [sep] + b, sep) == b
    ensures Before(a, sep) == a && After(a, sep) == []
  {
    if a != [] {
      CutAt(a[1..], sep, b);
      assert (a + [sep] + b)[1..] == a[1..] + [sep] + b;
    } else {
      assert ([] + [sep] + b)[1..] == b;
    }
  }

  lemma {:induction false} EscapeIsPlain(s: Text, c: Byte)
    requires c == '&' || c == '=' || c == ';'
    ensures c !in Escape(s)
  {
    if s != [] {
      EscapeIsPlain(s[1..], c);
      assert c !in EscapeByte(s[0]);
    }
  }

  // ---- pairs

  datatype Pair = Pair(key: Text, value: Text)

  function PrintPair(p: Pair): Text { Escape(p.key) + ['='] + Escape(p.value) }

  function PrintPairs(ps: seq<Pair>): Text {
    if ps == [] then []
    else if |ps| == 1 then PrintPair(ps[0])
    else PrintPair(ps[0]) + ['&'] + PrintPairs(ps[1..])
  }

  /** None for a segment that ParseQuery skips. */
  function ParsePair(segment: Text): Option<Pair> {
    if segment == [] || ';' in segment then None else
      match (Unescape(Before(segment, '=')), Unescape(After(segment, '=')))
      case (Some(key), Some(value)) => Some(Pair(key, value))
      case _ => None
  }

  function ParsePairs(query: Text): seq<Pair>
    decreases |query|
  {
    if query == [] then [] else
      var rest := ParsePairs(After(query, '&'));
      match ParsePair(Before(query, '&'))
      case Some(p) => [p] + rest
      case None => rest
  }

  lemma PrintedPair(p: Pair)
    ensures '&' !in PrintPair(p) && ParsePair(PrintPair(p)) == Some(p)
  {
    EscapeIsPlain(p.key, '&');
    EscapeIsPlain(p.value, '&');
    EscapeIsPlain(p.key, ';');
    EscapeIsPlain(p.value, ';');
    EscapeIsPlain(p.key, '=');
    CutAt(Escape(p.key), '=', Escape(p.value));
    EscapeRoundTrip(p.key);
    EscapeRoundTrip(p.value);
  }

  /** Parsing undoes printing: the same pairs, in the same order. */
  lemma {:induction false} PairsRoundTrip(ps: seq<Pair>)
    ensures ParsePairs(PrintPairs(ps)) == ps
  {
    if ps != [] {
      PrintedPair(ps[0]);
      var first := PrintPair(ps[0]);
      if |ps| == 1 {
        CutAt(first, '&', []);
        assert ps == [ps[0]];
      } else {
        PairsRoundTrip(ps[1..]);
        CutAt(first, '&', PrintPairs(ps[1..]));
        assert ps == [ps[0]] + ps[1..];
      }
    }
  }

  lemma Regroup3(a: Text, b: Text, c: Text)
    ensures a + (b + c) == (a + b) + c
  {}

  lemma PrintedFirst(p: Pair, rest: seq<Pair>)
    requires rest != []
    ensures PrintPairs([p] + rest) == (PrintPair(p) + ['&']) + PrintPairs(rest)
  {
    assert ([p] + rest)[1..] == rest;
  }

  lemma PrintsNothing(ps: seq<Pair>)
    ensures PrintPairs(ps) == [] <==> ps == []
  {}

  lemma {:induction false} PrintAppend(ps: seq<Pair>, p: Pair)
    ensures PrintPairs(ps + [p]) == if ps == [] then PrintPair(p) else PrintPairs(ps) + (['&'] + PrintPair(p))
  {
    if ps == [] {
      assert [] + [p] == [p];
      return;
    }
    var rest := ps[1..];
    assert ps == [ps[0]] + rest && ps + [p] == [ps[0]] + (rest + [p]);
    PrintedFirst(ps[0], rest + [p]);
    PrintAppend(rest, p);
    if rest == [] {
      Regroup3(PrintPair(ps[0]), ['&'], PrintPair(p));
      return;
    }
    PrintedFirst(ps[0], rest);
    Regroup3(PrintPair(ps[0]) + ['&'], PrintPairs(rest), ['&'] + PrintPair(p));
  }

  // ---- the multimap

  type Values = map<Text, seq<Text>>

  function Add(m: Values, p: Pair): Values {
    m[p.key := (if p.key in m then m[p.key] else []) + [p.value]]
  }

  function ToValues(ps: seq<Pair>): Values {
    if ps == [] then map[] else Add(ToValues(ps[..|ps| - 1]), ps[|ps| - 1])
  }

  /** url.ParseQuery, its errors ignored as Query() does. */
  function Parse(query: Text): Values { ToValues(ParsePairs(query)) }

  ghost predicate NoEmptyLists(m: Values) { forall k | k in m :: m[k] != [] }

  lemma {:induction false} ParsedListsNotEmpty(ps: seq<Pair>)
    ensures NoEmptyLists(ToValues(ps))
  {
    if ps != [] {
      ParsedListsNotEmpty(ps[..|ps| - 1]);
    }
  }

  // ---- in terms of bytes

  /** Letters, digits and - _ . ~ stand for themselves, a space becomes a plus, and every other byte a percent sign
      and its two digits, in upper case. */
  lemma EscapeMeans(c: Byte, s: Text)
    ensures Escape([]) == []
    ensures Escape([c] + s) ==
      (if 'a' <= c <= 'z' || 'A' <= c <= 'Z' || '0' <= c <= '9' || c == '-' || c == '_' || c == '.' || c == '~' then [c]
       else if c == ' ' then ['+']
       else ['%', "0123456789ABCDEF"[c as int / 16], "0123456789ABCDEF"[c as int % 16]]) + Escape(s)
  {
    assert ([c] + s)[1..] == s;
  }

  /** Back: a plus is a space, a percent sign needs two digits, in either case, and the rest stands for itself. */
  lemma UnescapeMeans(c: Byte, s: Text)
    requires c != '%'
    ensures Unescape([]) == Some([])
    ensures Unescape([c] + s) == if Unescape(s).Some? then Some([if c == '+' then ' ' else c] + Unescape(s).value) else None
  {
    assert ([c] + s)[1..] == s;
  }

  lemma UnescapePercent(s: Text)
    ensures Unescape(['%'] + s) ==
      if |s| >= 2 && IsHex(s[0]) && IsHex(s[1]) && Unescape(s[2..]).Some?
      then Some([(16 * HexValue(s[0]) + HexValue(s[1])) as char] + Unescape(s[2..]).value) else None
  {
    assert (['%'] + s)[1..] == s && |s| >= 2 ==> (['%'] + s)[3..] == s[2..];
  }

  lemma HexMeans(c: Byte)
    ensures IsHex(c) <==> c in "0123456789ABCDEFabcdef"
    ensures IsHex(c) ==> c == "0123456789ABCDEF"[HexValue(c)] || c == "0123456789abcdef"[HexValue(c)]
  {}

  /** A query is taken apart at every '&'. A segment that is empty, has a ';' in it or a broken escape is skipped;
      the rest is a key up to the first '=' and a value after it, which may be missing. */
  lemma SegmentMeans(segment: Text, rest: Text)
    requires '&' !in segment
    ensures ParsePairs(segment + ['&'] + rest) == ParsePairs(segment) + ParsePairs(rest)
    ensures ParsePairs(segment) == if ParsePair(segment).Some? then [ParsePair(segment).value] else []
  {
    CutAt(segment, '&', rest);
    CutAt(segment, '&', []);
  }

  lemma PairMeans(key: Text, value: Text)
    requires '=' !in key
    ensures var k, v := Unescape(key), Unescape(value);
      && ParsePair(key + ['='] + value) == (if k.Some? && v.Some? && ';' !in key && ';' !in value then Some(Pair(k.value, v.value)) else None)
      && ParsePair(key) == (if k.Some? && ';' !in key && key != [] then Some(Pair(k.value, [])) else None)
  {
    CutAt(key, '=', value);
  }

  /** Pairs are written key=value, with '&' between them. */
  lemma PrintMeans(p: Pair, rest: seq<Pair>)
    ensures PrintPairs([]) == [] && PrintPairs([p]) == Escape(p.key) + ['='] + Escape(p.value)
    ensures rest != [] ==> PrintPairs([p] + rest) == PrintPairs([p]) + ['&'] + PrintPairs(rest)
  {
    if rest != [] {
      PrintedFirst(p, rest);
    }
  }

  /** A map gives every key its values in the order of the query. */
  lemma ValuesMean(ps: seq<Pair>, p: Pair)
    ensures ToValues([]) == map[]
    ensures var m := ToValues(ps);
      ToValues(ps + [p]) == m[p.key := if p.key in m then m[p.key] + [p.value] else [p.value]]
  {
    assert (ps + [p])[..|ps|] == ps && [] + [p.value] == [p.value];
  }
}
