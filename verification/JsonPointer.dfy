/**
 JSON pointers (RFC 6901): the encode, decode and read functions held as JavaScript source in quantagent/agent_planner.py.
 */
module JsonPointer {
  import opened Wrappers

  // ---------- Tokens ----------

  // s.replace(/c/g, text)
  function ReplaceChar(s: string, c: char, text: string): string {
    if s == "" then "" else (if s[0] == c then text else [s[0]]) + ReplaceChar(s[1..], c, text)
  }

  // s.replace(/ab/g, text)
  function ReplacePair(s: string, a: char, b: char, text: string): string {
    if s == "" then ""
    else if |s| >= 2 && s[0] == a && s[1] == b then text + ReplacePair(s[2..], a, b, text)
    else [s[0]] + ReplacePair(s[1..], a, b, text)
  }

  function EncodeToken(token: string): string {
    ReplaceChar(ReplaceChar(token, '~', "~0"), '/', "~1")
  }

  function DecodeToken(token: string): string {
    ReplacePair(ReplacePair(token, '~', '1', "/"), '~', '0', "~")
  }

  function Split(s: string, separator: char): (parts: seq<string>)
    ensures |parts| > 0
  {
    if s == "" then [""]
    else
      var rest := Split(s[1..], separator);
      if s[0] == separator then [""] + rest else [[s[0]] + rest[0]] + rest[1..]
  }

  function Print(tokens: seq<string>): string {
    if tokens == [] then "" else "/" + EncodeToken(tokens[0]) + Print(tokens[1..])
  }

  function DecodeAll(parts: seq<string>): seq<string> {
    if parts == [] then [] else [DecodeToken(parts[0])] + DecodeAll(parts[1..])
  }

  // The tokens of an absolute pointer; any other pointer is rejected, the empty one included.
  function Tokens(pointer: string): Option<seq<string>> {
    if pointer == "" || pointer[0] != '/' then None else Some(DecodeAll(Split(pointer[1..], '/')))
  }

  // ---------- The round trip ----------

  // The encoding of a token, character by character.
  function EncodeChar(c: char): string {
    if c == '~' then "~0" else if c == '/' then "~1" else [c]
  }

  function EncodeChars(token: string): string {
    if token == "" then "" else EncodeChar(token[0]) + EncodeChars(token[1..])
  }

  lemma {:induction false} ReplaceCharOver(s: string, t: string, c: char, text: string)
    ensures ReplaceChar(s + t, c, text) == ReplaceChar(s, c, text) + ReplaceChar(t, c, text)
  {
    if s == "" {
      assert s + t == t;
    } else {
      assert (s + t)[1..] == s[1..] + t;
      ReplaceCharOver(s[1..], t, c, text);
    }
  }

  // The two replacements in a row encode every character on its own.
  lemma {:induction false} EncodesEachChar(token: string)
    ensures EncodeToken(token) == EncodeChars(token)
  {
    if token == "" {
    } else {
      var c, rest := token[0], token[1..];
      var head := if c == '~' then "~0" else [c];
      EncodesEachChar(rest);
      ReplaceCharOver(head, ReplaceChar(rest, '~', "~0"), '/', "~1");
      assert ReplaceChar(head, '/', "~1") == EncodeChar(c) by {
        if c == '~' {
          assert head[1..] == "0" && "0"[1..] == "";
        } else {
          assert head[1..] == "";
        }
      }
    }
  }

  // The token with only its tildes encoded.
  function TildesOnly(token: string): string {
    if token == "" then "" else (if token[0] == '~' then "~0" else [token[0]]) + TildesOnly(token[1..])
  }

  lemma {:induction false} SlashesBack(token: string)
    ensures ReplacePair(EncodeChars(token), '~', '1', "/") == TildesOnly(token)
  {
    if token == "" {
    } else {
      var c, rest := token[0], EncodeChars(token[1..]);
      SlashesBack(token[1..]);
      if c == '~' {
        assert ("~0" + rest)[1..] == "0" + rest && ("0" + rest)[1..] == rest;
        assert ReplacePair("0" + rest, '~', '1', "/") == "0" + TildesOnly(token[1..]);
        assert "~" + ("0" + TildesOnly(token[1..])) == "~0" + TildesOnly(token[1..]);
      } else if c == '/' {
        assert ("~1" + rest)[2..] == rest;
      } else {
        assert ([c] + rest)[1..] == rest;
      }
    }
  }

  lemma {:induction false} TildesBack(token: string)
    ensures ReplacePair(TildesOnly(token), '~', '0', "~") == token
  {
    if token == "" {
    } else {
      var c, rest := token[0], TildesOnly(token[1..]);
      TildesBack(token[1..]);
      if c == '~' {
        assert ("~0" + rest)[2..] == rest;
      } else {
        assert ([c] + rest)[1..] == rest;
      }
    }
  }

  // Decoding undoes encoding, for every token.
  lemma DecodeEncode(token: string)
    ensures DecodeToken(EncodeToken(token)) == token
  {
    EncodesEachChar(token);
    SlashesBack(token);
    TildesBack(token);
  }

  // Decoding ~0 before ~1 would not.
  lemma OrderMatters()
    ensures exists token :: ReplacePair(ReplacePair(EncodeToken(token), '~', '0', "~"), '~', '1', "/") != token
  {
    var token := "~1";
    EncodesEachChar(token);
    assert token[1..] == "1" && "1"[1..] == "";
    assert EncodeChars("1") == "1";
    assert EncodeToken(token) == "~01";
    assert "~01"[2..] == "1";
    assert ReplacePair("1", '~', '0', "~") == "1";
    assert ReplacePair("~01", '~', '0', "~") == "~1";
    assert ReplacePair("~1", '~', '1', "/") == "/";
  }

  // What an encoded token looks like: no slash, and every tilde is followed by 0 or 1.
  predicate Canonical(s: string) {
    s == "" ||
    (s[0] != '/' && (s[0] == '~' ==> |s| >= 2 && (s[1] == '0' || s[1] == '1')) && Canonical(s[1..]))
  }

  lemma {:induction false} EncodedIsCanonical(token: string)
    ensures Canonical(EncodeChars(token))
    ensures '/' !in EncodeChars(token)
  {
    if token == "" {
    } else {
      var rest := EncodeChars(token[1..]);
      EncodedIsCanonical(token[1..]);
      if token[0] == '~' {
        assert ("~0" + rest)[1..] == "0" + rest && ("0" + rest)[1..] == rest;
        assert Canonical("0" + rest);
      } else if token[0] == '/' {
        assert ("~1" + rest)[1..] == "1" + rest && ("1" + rest)[1..] == rest;
        assert Canonical("1" + rest);
      } else {
        assert ([token[0]] + rest)[1..] == rest;
      }
    }
  }

  lemma {:induction false} CanonicalIsEncoded(s: string) returns (token: string)
    requires Canonical(s)
    ensures s == EncodeChars(token)
    decreases |s|
  {
    if s == "" {
      token := "";
    } else if s[0] == '~' {
      assert Canonical(s[1..]) && s[1..][1..] == s[2..];
      var tail := CanonicalIsEncoded(s[2..]);
      token := [if s[1] == '0' then '~' else '/'] + tail;
      assert token[1..] == tail && s == [s[0], s[1]] + s[2..];
    } else {
      var tail := CanonicalIsEncoded(s[1..]);
      token := [s[0]] + tail;
      assert token[1..] == tail && s == [s[0]] + s[1..];
    }
  }

  // Encoding undoes decoding exactly on the strings that an encoder can have written.
  lemma EncodeDecodeIff(s: string)
    ensures EncodeToken(DecodeToken(s)) == s <==> Canonical(s)
  {
    EncodesEachChar(DecodeToken(s));
    EncodedIsCanonical(DecodeToken(s));
    if Canonical(s) {
      var token := CanonicalIsEncoded(s);
      EncodesEachChar(token);
      DecodeEncode(token);
    }
  }

  lemma {:induction false} SplitBefore(part: string, rest: string, separator: char)
    requires separator !in part
    ensures Split(part + [separator] + rest, separator) == [part] + Split(rest, separator)
  {
    var s := part + [separator] + rest;
    if part == "" {
      assert s[1..] == rest;
    } else {
      assert s[1..] == part[1..] + [separator] + rest;
      SplitBefore(part[1..], rest, separator);
      assert [part[0]] + part[1..] == part;
    }
  }

  lemma {:induction false} SplitSingle(part: string, separator: char)
    requires separator !in part
    ensures Split(part, separator) == [part]
  {
    if part == "" {
    } else {
      SplitSingle(part[1..], separator);
      assert [part[0]] + part[1..] == part;
    }
  }

  lemma SplitPrinted(first: string, rest: string)
    requires '/' !in first && (rest != "" ==> rest[0] == '/')
    ensures Split(first + rest, '/') == [first] + if rest == "" then [] else Split(rest[1..], '/')
  {
    if rest == "" {
      assert first + rest == first;
      SplitSingle(first, '/');
    } else {
      assert first + rest == first + ['/'] + rest[1..];
      SplitBefore(first, rest[1..], '/');
    }
  }

  lemma PrintStartsWithSlash(tokens: seq<string>)
    ensures tokens == [] <==> Print(tokens) == ""
    ensures tokens != [] ==> Print(tokens)[0] == '/' && Print(tokens)[1..] == EncodeToken(tokens[0]) + Print(tokens[1..])
  {
    if tokens != [] {
      assert Print(tokens) == "/" + (EncodeToken(tokens[0]) + Print(tokens[1..]));
    }
  }

  lemma DecodeFirst(first: string, parts: seq<string>)
    ensures DecodeAll([first] + parts) == [DecodeToken(first)] + DecodeAll(parts)
  {
    assert ([first] + parts)[1..] == parts;
  }

  lemma {:induction false} TokensOfPrinted(tokens: seq<string>)
    requires tokens != []
    ensures Print(tokens) != "" && Print(tokens)[0] == '/'
    ensures DecodeAll(Split(Print(tokens)[1..], '/')) == tokens
    decreases |tokens|
  {
    var first, rest := EncodeToken(tokens[0]), Print(tokens[1..]);
    PrintStartsWithSlash(tokens);
    PrintStartsWithSlash(tokens[1..]);
    assert '/' !in first by { EncodesEachChar(tokens[0]); EncodedIsCanonical(tokens[0]); }
    DecodeEncode(tokens[0]);
    SplitPrinted(first, rest);
    if rest == "" {
      DecodeFirst(first, []);
    } else {
      TokensOfPrinted(tokens[1..]);
      DecodeFirst(first, Split(rest[1..], '/'));
    }
    assert tokens == [tokens[0]] + tokens[1..];
  }

  // Printing a non-empty list of tokens as a pointer and reading the tokens back gives the same list.
  lemma PointerRoundTrip(tokens: seq<string>)
    requires tokens != []
    ensures Tokens(Print(tokens)) == Some(tokens)
  {
    TokensOfPrinted(tokens);
  }

  // ---------- Reading ----------

  datatype Json = Other(text: string) | Array(items: seq<Json>) | Object(fields: map<string, Json>)

  predicate JsSpace(c: char) {
    var n := c as int;
    || 9 <= n <= 13 || n == 32 || n == 0xA0 || n == 0x1680 || 0x2000 <= n <= 0x200A
    || n == 0x2028 || n == 0x2029 || n == 0x202F || n == 0x205F || n == 0x3000 || n == 0xFEFF
  }

  predicate IsDigit(c: char) {
    '0' <= c <= '9'
  }

  function DigitValue(c: char): int {
    c as int - '0' as int
  }

  function ParseDigits(s: string, value: int): int {
    if s != "" && IsDigit(s[0]) then ParseDigits(s[1..], 10 * value + DigitValue(s[0])) else value
  }

  // Number.parseInt(s, 10); None is NaN.
  function ParseInt(s: string): Option<int> {
    if s != "" && JsSpace(s[0]) then ParseInt(s[1..])
    else
      var signed := s != "" && (s[0] == '-' || s[0] == '+');
      var digits := if signed then s[1..] else s;
      if digits == "" || !IsDigit(digits[0]) then None
      else Some((if signed && s[0] == '-' then -1 else 1) * ParseDigits(digits, 0))
  }

  function ReadStep(current: Json, token: string): Option<Json> {
    match current
    case Array(items) =>
      var index := ParseInt(token);
      if index.None? || index.value < 0 || index.value >= |items| then None else Some(items[index.value])
    case Object(fields) => if token in fields then Some(fields[token]) else None
    case Other(_) => None
  }

  function ReadTokens(current: Json, tokens: seq<string>): Option<Json> {
    if tokens == [] then Some(current)
    else match ReadStep(current, tokens[0]) case None => None case Some(next) => ReadTokens(next, tokens[1..])
  }

  // readJsonPointer; None is what failOrUndefined throws or returns.
  function Read(root: Json, pointer: string): Option<Json> {
    match Tokens(pointer) case None => None case Some(tokens) => ReadTokens(root, tokens)
  }

  method ReadJsonPointer(root: Json, pointer: string) returns (value: Option<Json>)
    ensures value == Read(root, pointer)
  {
    var tokens := Tokens(pointer);
    if tokens.None? {
      return None;
    }
    var current := root;
    var i := 0;
    while i < |tokens.value|
      invariant 0 <= i <= |tokens.value|
      invariant ReadTokens(root, tokens.value) == ReadTokens(current, tokens.value[i..])
    {
      assert tokens.value[i..][1..] == tokens.value[i + 1..];
      var next := ReadStep(current, tokens.value[i]);
      if next.None? {
        return None;
      }
      current := next.value;
      i := i + 1;
    }
    value := Some(current);
  }

  // A way down a value: through the field of an object or the element of an array.
  datatype Step = Key(name: string) | Index(index: nat)

  predicate Leads(root: Json, path: seq<Step>) {
    path == [] ||
    match path[0]
    case Key(name) => root.Object? && name in root.fields && Leads(root.fields[name], path[1..])
    case Index(i) => root.Array? && i < |root.items| && Leads(root.items[i], path[1..])
  }

  function ValueAt(root: Json, path: seq<Step>): Json
    requires Leads(root, path)
  {
    if path == [] then root
    else match path[0]
      case Key(name) => ValueAt(root.fields[name], path[1..])
      case Index(i) => ValueAt(root.items[i], path[1..])
  }

  function Decimal(n: nat): string {
    (if n < 10 then "" else Decimal(n / 10)) + [('0' as int + n % 10) as char]
  }

  function PathTokens(path: seq<Step>): seq<string> {
    if path == [] then []
    else [match path[0] case Key(name) => name case Index(i) => Decimal(i)] + PathTokens(path[1..])
  }

  lemma {:induction false} ParseDecimal(n: nat)
    ensures Decimal(n) != "" && forall i :: 0 <= i < |Decimal(n)| ==> IsDigit(Decimal(n)[i])
    ensures ParseDigits(Decimal(n), 0) == n
  {
    var last := [('0' as int + n % 10) as char];
    if n < 10 {
      assert "" + last == last && last[1..] == "";
    } else {
      ParseDecimal(n / 10);
      ParseDigitsOver(Decimal(n / 10), last, 0);
      assert last[1..] == "";
    }
  }

  lemma {:induction false} ParseDigitsOver(s: string, t: string, value: int)
    requires forall i :: 0 <= i < |s| ==> IsDigit(s[i])
    ensures ParseDigits(s + t, value) == ParseDigits(t, ParseDigits(s, value))
  {
    if s == "" {
      assert s + t == t;
    } else {
      assert (s + t)[1..] == s[1..] + t;
      ParseDigitsOver(s[1..], t, 10 * value + DigitValue(s[0]));
    }
  }

  lemma {:induction false} ReadsPath(root: Json, path: seq<Step>)
    requires Leads(root, path)
    ensures ReadTokens(root, PathTokens(path)) == Some(ValueAt(root, path))
  {
    if path == [] {
    } else {
      assert PathTokens(path)[1..] == PathTokens(path[1..]);
      match path[0] {
        case Key(name) => ReadsPath(root.fields[name], path[1..]);
        case Index(i) =>
          ParseDecimal(i);
          assert IsDigit(Decimal(i)[0]);
          assert ParseInt(Decimal(i)) == Some(i);
          ReadsPath(root.items[i], path[1..]);
      }
    }
  }

  // The pointer printed for a non-empty path that exists in a value reads the value at the end of that path,
  // whatever characters the keys contain.
  lemma ReadsWhatWasPointedAt(root: Json, path: seq<Step>)
    requires path != [] && Leads(root, path)
    ensures Read(root, Print(PathTokens(path))) == Some(ValueAt(root, path))
  {
    PointerRoundTrip(PathTokens(path));
    ReadsPath(root, path);
  }

  // ---------- Which elements a token names ----------

  ghost predicate AllDigits(s: string) {
    forall k :: 0 <= k < |s| ==> IsDigit(s[k])
  }

  ghost predicate Zeros(s: string) {
    forall k :: 0 <= k < |s| ==> s[k] == '0'
  }

  lemma {:induction false} DigitsStop(digits: string, rest: string, value: int)
    requires AllDigits(digits) && (rest != "" ==> !IsDigit(rest[0]))
    ensures ParseDigits(digits + rest, value) == ParseDigits(digits, value)
  {
    if digits == "" {
      assert digits + rest == rest;
    } else {
      assert (digits + rest)[1..] == digits[1..] + rest;
      DigitsStop(digits[1..], rest, 10 * value + DigitValue(digits[0]));
    }
  }

  lemma {:induction false} ZerosCount(zeros: string)
    requires Zeros(zeros)
    ensures ParseDigits(zeros, 0) == 0
  {
    if zeros != "" {
      ZerosCount(zeros[1..]);
    }
  }

  lemma {:induction false} SpaceSkipped(spaces: string, rest: string)
    requires (forall k :: 0 <= k < |spaces| ==> JsSpace(spaces[k])) && (rest != "" ==> !JsSpace(rest[0]))
    ensures ParseInt(spaces + rest) == ParseInt(rest)
  {
    if spaces == "" {
      assert spaces + rest == rest;
    } else {
      assert (spaces + rest)[1..] == spaces[1..] + rest;
      SpaceSkipped(spaces[1..], rest);
    }
  }

  // White space, a sign, zeros and then a number name that element, whatever follows that is not a digit. A token without a digit
  // there names none.
  lemma ParseIntMeans(spaces: string, sign: string, zeros: string, n: nat, rest: string)
    requires (forall k :: 0 <= k < |spaces| ==> JsSpace(spaces[k])) && sign in {"", "+", "-"} && Zeros(zeros)
    requires rest != "" ==> !IsDigit(rest[0])
    ensures ParseInt(spaces + (sign + (zeros + Decimal(n) + rest))) == Some((if sign == "-" then -1 else 1) * n)
    ensures (rest != "" && sign == "" ==> !JsSpace(rest[0]) && rest[0] != '-' && rest[0] != '+') ==>
              ParseInt(spaces + (sign + rest)) == None
  {
    var digits := zeros + Decimal(n);
    ParseDecimal(n);
    ParseDigitsOver(zeros, Decimal(n), 0);
    ZerosCount(zeros);
    DigitsStop(digits, rest, 0);
    SignThenDigits(sign, digits + rest);
    assert zeros + Decimal(n) + rest == digits + rest;
    SpaceSkipped(spaces, sign + (digits + rest));
    if rest != "" && sign == "" ==> !JsSpace(rest[0]) && rest[0] != '-' && rest[0] != '+' {
      SignAlone(sign, rest);
      SpaceSkipped(spaces, sign + rest);
    }
  }

  lemma SignThenDigits(sign: string, digits: string)
    requires sign in {"", "+", "-"} && digits != "" && IsDigit(digits[0])
    ensures sign + digits != "" && !JsSpace((sign + digits)[0])
    ensures ParseInt(sign + digits) == Some((if sign == "-" then -1 else 1) * ParseDigits(digits, 0))
  {
    if sign == "" {
      assert sign + digits == digits;
    } else {
      assert (sign + digits)[0] == sign[0] && (sign + digits)[1..] == digits;
    }
  }

  lemma SignAlone(sign: string, rest: string)
    requires sign in {"", "+", "-"} && (rest != "" ==> !IsDigit(rest[0]))
    requires rest != "" && sign == "" ==> !JsSpace(rest[0]) && rest[0] != '-' && rest[0] != '+'
    ensures sign + rest != "" ==> !JsSpace((sign + rest)[0])
    ensures ParseInt(sign + rest) == None
  {
    if sign == "" {
      assert sign + rest == rest;
    } else {
      assert (sign + rest)[0] == sign[0] && (sign + rest)[1..] == rest;
    }
  }

  // A token leads one step down: it is the name of a field, or names an element.
  predicate Matches(step: Step, token: string) {
    match step case Key(name) => token == name case Index(i) => ParseInt(token) == Some(i)
  }

  ghost predicate Follows(root: Json, path: seq<Step>, tokens: seq<string>) {
    Leads(root, path) && |path| == |tokens| && forall k :: 0 <= k < |path| ==> Matches(path[k], tokens[k])
  }

  lemma {:induction false} ReadIsFollowed(root: Json, tokens: seq<string>) returns (path: seq<Step>)
    requires ReadTokens(root, tokens).Some?
    ensures Follows(root, path, tokens) && ValueAt(root, path) == ReadTokens(root, tokens).value
  {
    if tokens == [] {
      path := [];
    } else {
      var next := ReadStep(root, tokens[0]).value;
      var rest := ReadIsFollowed(next, tokens[1..]);
      path := [if root.Object? then Key(tokens[0]) else Index(ParseInt(tokens[0]).value)] + rest;
      assert path[1..] == rest;
      forall k | 0 <= k < |path| ensures Matches(path[k], tokens[k]) {
        assert k > 0 ==> path[k] == rest[k - 1] && tokens[k] == tokens[1..][k - 1];
      }
    }
  }

  lemma {:induction false} FollowedIsRead(root: Json, path: seq<Step>, tokens: seq<string>)
    requires Follows(root, path, tokens)
    ensures ReadTokens(root, tokens) == Some(ValueAt(root, path))
  {
    if path == [] {
    } else {
      var next := match path[0] case Key(name) => root.fields[name] case Index(i) => root.items[i];
      assert Matches(path[0], tokens[0]);
      forall k | 0 <= k < |path[1..]| ensures Matches(path[1..][k], tokens[1..][k]) {
        assert Matches(path[k + 1], tokens[k + 1]);
      }
      FollowedIsRead(next, path[1..], tokens[1..]);
    }
  }

  // A pointer reads a value exactly when its tokens lead there; a pointer that does not start with a slash reads nothing.
  lemma ReadIff(root: Json, pointer: string, value: Json)
    ensures Read(root, pointer) == Some(value) <==>
            Tokens(pointer).Some? && exists path :: Follows(root, path, Tokens(pointer).value) && ValueAt(root, path) == value
    ensures Tokens(pointer).Some? <==> pointer != "" && pointer[0] == '/'
  {
    if Tokens(pointer).Some? {
      var tokens := Tokens(pointer).value;
      forall path | Follows(root, path, tokens) ensures ReadTokens(root, tokens) == Some(ValueAt(root, path)) {
        FollowedIsRead(root, path, tokens);
      }
      if ReadTokens(root, tokens).Some? {
        var path := ReadIsFollowed(root, tokens);
      }
    }
  }
}
