/** Parsing a registry's WWW-Authenticate header (internal/agent/registry.go): section 2.1 of
    RFC 7235. */
module AuthChallenge {
  import opened Base
  import opened Text

  type Params = map<string, string>

  predicate IsSpace(c: char) {
    c in " \t\n\r" || c == '\U{B}' || c == '\U{C}' || c == '\U{85}' || c == '\U{A0}' || c == '\U{1680}'
    || '\U{2000}' <= c <= '\U{200A}' || c == '\U{2028}' || c == '\U{2029}' || c == '\U{202F}' || c == '\U{205F}'
    || c == '\U{3000}'
  }

  function TrimLeftSpace(s: string): (r: string)
    ensures r == [] || !IsSpace(r[0])
  {
    if s != [] && IsSpace(s[0]) then TrimLeftSpace(s[1..]) else s
  }

  function TrimRightSpace(s: string): string {
    if s != [] && IsSpace(s[|s| - 1]) then TrimRightSpace(s[..|s| - 1]) else s
  }

  function TrimSpace(s: string): string {
    TrimRightSpace(TrimLeftSpace(s))
  }

  function LowerChar(c: char): char {
    if 'A' <= c <= 'Z' then c + ' ' else c
  }

  function ToLower(s: string): string {
    seq(|s|, i requires 0 <= i < |s| => LowerChar(s[i]))
  }

  // ---------------------------------------------------------------- parsing

  /** strings.TrimLeft(s, " ,"). */
  function SkipSeparators(s: string): (r: string)
    ensures |r| <= |s|
  {
    if s != [] && s[0] in " ," then SkipSeparators(s[1..]) else s
  }

  /** The value at the front of s and what follows it. */
  function TakeValue(s: string): (r: (string, string))
    ensures |r.1| <= |s|
  {
    if s != [] && s[0] == '"' then
      match IndexOf(s[1..], '"')
      case None => (s[1..], "")
      case Some(end) => (s[1..1 + end], s[2 + end..])
    else
      match IndexOf(s, ',')
      case None => (s, "")
      case Some(end) => (s[..end], s[end..])
  }

  function ParamsFrom(rest: string, params: Params): Params
    decreases |rest|
  {
    var s := SkipSeparators(rest);
    match IndexOf(s, '=')
    case None => params
    case Some(eq) =>
      var v := TakeValue(s[eq + 1..]);
      ParamsFrom(v.1, params[ToLower(TrimSpace(s[..eq])) := TrimSpace(v.0)])
  }

  function Parsed(h: string): (string, Params) {
    var s := TrimSpace(h);
    match IndexOf(s, ' ')
    case None => (s, map[])
    case Some(sp) => (s[..sp], ParamsFrom(s[sp + 1..], map[]))
  }

  method ParseAuthChallenge(header: string) returns (scheme: string, params: Params)
    ensures (scheme, params) == Parsed(header)
  {
    hide TakeValue, TrimSpace, ToLower, SkipSeparators, IndexOf;
    params := map[];
    var h := TrimSpace(header);
    var sp := IndexOf(h, ' ');
    if sp == None {
      return h, params;
    }
    scheme := h[..sp.value];
    var rest := h[sp.value + 1..];
    while |rest| > 0
      invariant ParamsFrom(rest, params) == ParamsFrom(h[sp.value + 1..], map[])
      decreases |rest|
    {
      rest := SkipSeparators(rest);
      var eq := IndexOf(rest, '=');
      if eq == None {
        return;
      }
      var key := ToLower(TrimSpace(rest[..eq.value]));
      rest := rest[eq.value + 1..];
      var taken := TakeValue(rest);
      var val := taken.0;
      rest := taken.1;
      params := params[key := TrimSpace(val)];
    }
  }

  // ---------------------------------------------------------------- rendering

  // One parameter as it may be written: separators before it, quotes around the value or none.
  datatype Item = Item(separators: string, key: string, quoted: bool, value: string)

  function RenderItem(item: Item): string {
    item.separators + item.key + "=" + if item.quoted then "\"" + item.value + "\"" else item.value
  }

  function RenderItems(items: seq<Item>): string {
    if items == [] then "" else RenderItem(items[0]) + RenderItems(items[1..])
  }

  predicate ItemOk(item: Item) {
    && (forall c :: c in item.separators ==> c in " ,")
    && '=' !in item.key && (item.key == "" || item.key[0] !in " ,")
    && (if item.quoted then '"' !in item.value else ',' !in item.value && (item.value == "" || item.value[0] != '"'))
  }

  /** A comma must end a value without quotes. */
  predicate ItemsOk(items: seq<Item>) {
    && (forall i :: 0 <= i < |items| ==> ItemOk(items[i]))
    && forall i :: 0 <= i < |items| - 1 && !items[i].quoted ==>
         items[i + 1].separators != "" && items[i + 1].separators[0] == ','
  }

  /** Keys in lower case, values trimmed, the last of equal keys wins. */
  function Meaning(items: seq<Item>, params: Params): Params {
    if items == [] then params else Meaning(items[1..], With(params, items[0]))
  }

  function With(params: Params, item: Item): Params {
    params[ToLower(TrimSpace(item.key)) := TrimSpace(item.value)]
  }

  lemma {:induction false} SeparatorsSkipped(separators: string, s: string)
    requires forall c :: c in separators ==> c in " ,"
    requires s == "" || s[0] !in " ,"
    ensures SkipSeparators(separators + s) == s
  {
    if separators == "" {
      assert separators + s == s;
    } else {
      assert (separators + s)[0] == separators[0] && separators[0] in separators;
      assert (separators + s)[1..] == separators[1..] + s;
      SeparatorsSkipped(separators[1..], s);
    }
  }

  lemma ValueTaken(item: Item, rest: string)
    requires ItemOk(item)
    requires item.quoted || rest == "" || rest[0] == ','
    ensures TakeValue((if item.quoted then "\"" + item.value + "\"" else item.value) + rest) == (item.value, rest)
  {
    var v := item.value;
    if item.quoted {
      var s := "\"" + v + "\"" + rest;
      assert s[1..] == v + ['"'] + rest;
      IndexOfAt(v, '"', rest);
      assert s[1..1 + |v|] == v && s[2 + |v|..] == rest;
    } else if rest == "" {
      assert v + rest == v;
      IndexOfNone(v, ',');
    } else {
      assert v + rest == v + [','] + rest[1..];
      IndexOfAt(v, ',', rest[1..]);
      assert (v + rest)[..|v|] == v && (v + rest)[|v|..] == rest;
    }
  }

  lemma ItemRead(item: Item, tail: string, params: Params)
    requires ItemOk(item)
    requires item.quoted || tail == "" || tail[0] == ','
    ensures ParamsFrom(RenderItem(item) + tail, params) == ParamsFrom(tail, With(params, item))
  {
    var written := if item.quoted then "\"" + item.value + "\"" else item.value;
    var s := item.key + ['='] + (written + tail);
    assert RenderItem(item) + tail == item.separators + s;
    assert s[..|item.key|] == item.key && s[|item.key| + 1..] == written + tail;
    hide TrimSpace, ToLower, IsSpace;
    SeparatorsSkipped(item.separators, s);
    IndexOfAt(item.key, '=', written + tail);
    ValueTaken(item, tail);
  }

  /** Any way of writing the parameters is read back, commas inside quotes included. */
  lemma {:induction false} ItemsRead(items: seq<Item>, params: Params)
    requires ItemsOk(items)
    ensures ParamsFrom(RenderItems(items), params) == Meaning(items, params)
    decreases |items|
  {
    if items != [] {
      if !items[0].quoted {
        NextBegins(items);
      }
      ItemRead(items[0], RenderItems(items[1..]), params);
      ItemsRead(items[1..], With(params, items[0]));
    }
  }

  lemma NextBegins(items: seq<Item>)
    requires items != [] && ItemsOk(items) && !items[0].quoted
    ensures var tail := RenderItems(items[1..]); tail == "" || tail[0] == ','
  {
    if |items| > 1 {
      assert items[1..][0] == items[1];
    }
  }

  // ---------------------------------------------------------------- the canonical form

  /** k1="v1",k2="v2",... */
  function Quoted(pairs: seq<(string, string)>): seq<Item> {
    seq(|pairs|, i requires 0 <= i < |pairs| => Item(if i == 0 then "" else ",", pairs[i].0, true, pairs[i].1))
  }

  function RenderChallenge(scheme: string, pairs: seq<(string, string)>): string {
    if pairs == [] then scheme else scheme + " " + RenderItems(Quoted(pairs))
  }

  /** The last of equal keys wins. */
  function MapOf(pairs: seq<(string, string)>): Params {
    if pairs == [] then map[]
    else MapOf(pairs[..|pairs| - 1])[pairs[|pairs| - 1].0 := pairs[|pairs| - 1].1]
  }

  predicate NoSpace(s: string) {
    forall c :: c in s ==> !IsSpace(c)
  }

  predicate LowerToken(k: string) {
    NoSpace(k) && '=' !in k && ',' !in k && ToLower(k) == k
  }

  lemma TrimNothing(s: string)
    requires s != "" ==> !IsSpace(s[0]) && !IsSpace(s[|s| - 1])
    ensures TrimSpace(s) == s
  {
  }

  lemma {:induction false} MeaningLast(items: seq<Item>, params: Params)
    requires items != []
    ensures Meaning(items, params) == With(Meaning(items[..|items| - 1], params), items[|items| - 1])
    decreases |items|
  {
    var n := |items| - 1;
    hide With;
    if n > 0 {
      assert items[1..][..n - 1] == items[..n][1..];
      MeaningLast(items[1..], With(params, items[0]));
    } else {
      assert items[1..] == [];
    }
  }

  predicate Renderable(pairs: seq<(string, string)>) {
    forall i :: 0 <= i < |pairs| ==>
      LowerToken(pairs[i].0) && '"' !in pairs[i].1 && TrimSpace(pairs[i].1) == pairs[i].1
  }

  lemma {:induction false} MeaningOfPairs(pairs: seq<(string, string)>)
    requires Renderable(pairs)
    ensures Meaning(Quoted(pairs), map[]) == MapOf(pairs)
    decreases |pairs|
  {
    if pairs != [] {
      var n := |pairs| - 1;
      MeaningLast(Quoted(pairs), map[]);
      assert Quoted(pairs)[..n] == Quoted(pairs[..n]);
      MeaningOfPairs(pairs[..n]);
      assert LowerToken(pairs[n].0);
      if pairs[n].0 != "" {
        assert pairs[n].0[0] in pairs[n].0 && pairs[n].0[|pairs[n].0| - 1] in pairs[n].0;
      }
      TrimNothing(pairs[n].0);
    }
  }

  lemma {:induction false} EndsInQuote(items: seq<Item>)
    requires items != [] && items[|items| - 1].quoted
    ensures RenderItems(items) != "" && RenderItems(items)[|RenderItems(items)| - 1] == '"'
    decreases |items|
  {
    if |items| > 1 {
      EndsInQuote(items[1..]);
    }
  }

  lemma QuotedIsOk(pairs: seq<(string, string)>)
    requires Renderable(pairs)
    ensures ItemsOk(Quoted(pairs))
  {
    forall i | 0 <= i < |pairs| ensures ItemOk(Quoted(pairs)[i]) {
      var key := pairs[i].0;
      assert LowerToken(key);
      assert key != "" ==> key[0] in key && IsSpace(' ');
    }
  }

  /** Parsing inverts rendering: scheme k1="v1",k2="v2",... comes back as scheme and map. */
  lemma ChallengeRoundTrip(scheme: string, pairs: seq<(string, string)>)
    requires scheme != "" && NoSpace(scheme) && Renderable(pairs)
    ensures Parsed(RenderChallenge(scheme, pairs)) == (scheme, MapOf(pairs))
  {
    var h, params := RenderChallenge(scheme, pairs), RenderItems(Quoted(pairs));
    assert scheme[0] in scheme && scheme[|scheme| - 1] in scheme && IsSpace(' ');
    if pairs == [] {
      TrimNothing(h);
      IndexOfNone(scheme, ' ');
    } else {
      EndsInQuote(Quoted(pairs));
      assert h == scheme + [' '] + params && !IsSpace('"');
      TrimNothing(h);
      IndexOfAt(scheme, ' ', params);
      assert h[..|scheme|] == scheme && h[|scheme| + 1..] == params;
      QuotedIsOk(pairs);
      ItemsRead(Quoted(pairs), map[]);
      MeaningOfPairs(pairs);
    }
  }

  // ---------------------------------------------------------------- keys and values

  /** Upper-case ASCII letters move to lower case, everything else stays. */
  lemma ToLowerExactly(s: string)
    ensures |ToLower(s)| == |s|
    ensures forall i :: 0 <= i < |s| ==>
      ToLower(s)[i] as int == s[i] as int + if 'A' <= s[i] <= 'Z' then 'a' as int - 'A' as int else 0
  {
  }

  lemma {:induction false} TrimmedLeft(s: string) returns (a: string)
    ensures s == a + TrimLeftSpace(s) && forall c :: c in a ==> IsSpace(c)
  {
    hide IsSpace;
    a := "";
    if s != [] && IsSpace(s[0]) {
      var b := TrimmedLeft(s[1..]);
      a := [s[0]] + b;
    }
  }

  lemma {:induction false} TrimmedRight(s: string) returns (b: string)
    ensures s == TrimRightSpace(s) + b && forall c :: c in b ==> IsSpace(c)
    ensures TrimRightSpace(s) != "" ==> !IsSpace(TrimRightSpace(s)[|TrimRightSpace(s)| - 1])
    decreases |s|
  {
    hide IsSpace;
    b := "";
    if s != [] && IsSpace(s[|s| - 1]) {
      var a := TrimmedRight(s[..|s| - 1]);
      b := a + [s[|s| - 1]];
    }
  }

  /** Trimming takes spaces off both ends, all of them, and nothing else. */
  lemma TrimSpaceExactly(s: string) returns (a: string, b: string)
    ensures s == a + TrimSpace(s) + b && forall c :: c in a + b ==> IsSpace(c)
    ensures TrimSpace(s) != "" ==> !IsSpace(TrimSpace(s)[0]) && !IsSpace(TrimSpace(s)[|TrimSpace(s)| - 1])
  {
    a := TrimmedLeft(s);
    b := TrimmedRight(TrimLeftSpace(s));
    hide IsSpace;
    var left, both := TrimLeftSpace(s), TrimSpace(s);
    assert left == both + b;
    assert both != "" ==> left[0] == both[0];
  }

  /** A quote that is never closed takes the rest of the header. */
  lemma UnclosedQuoteRead(key: string, value: string, params: Params)
    requires '=' !in key && (key == "" || key[0] !in " ,") && '"' !in value
    ensures ParamsFrom(key + "=\"" + value, params) == params[ToLower(TrimSpace(key)) := TrimSpace(value)]
  {
    var rest := "\"" + value;
    var s := key + ['='] + rest;
    assert key + "=\"" + value == s;
    assert SkipSeparators(s) == s;
    IndexOfAt(key, '=', rest);
    assert s[..|key|] == key && s[|key| + 1..] == rest && rest[1..] == value;
    IndexOfNone(value, '"');
    assert TakeValue(rest) == (value, "");
    hide TrimSpace, ToLower, TakeValue;
    assert ParamsFrom("", params[ToLower(TrimSpace(key)) := TrimSpace(value)]) == params[ToLower(TrimSpace(key)) := TrimSpace(value)];
  }
}
