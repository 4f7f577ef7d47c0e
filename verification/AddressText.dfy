/** The text form of addresses: Bech32m over the alphabet of BIP 173. */
module AddressText {
  import opened Types
  import opened Bits
  import opened Radix
  import opened Bech32

  // ---- Characters ----

  /** The letter of a symbol. */
  function Letter(v: nat): char {
    if v == 0 then 'q' else if v == 1 then 'p' else if v == 2 then 'z' else if v == 3 then 'r' else if v == 4 then 'y'
    else if v == 5 then '9'
    else if v == 6 then 'x' else if v == 7 then '8' else if v == 8 then 'g' else if v == 9 then 'f'
    else if v == 10 then '2' else if v == 11 then 't'
    else if v == 12 then 'v' else if v == 13 then 'd' else if v == 14 then 'w' else if v == 15 then '0'
    else if v == 16 then 's' else if v == 17 then '3'
    else if v == 18 then 'j' else if v == 19 then 'n' else if v == 20 then '5' else if v == 21 then '4'
    else if v == 22 then 'k' else if v == 23 then 'h'
    else if v == 24 then 'c' else if v == 25 then 'e' else if v == 26 then '6' else if v == 27 then 'm'
    else if v == 28 then 'u' else if v == 29 then 'a'
    else if v == 30 then '7'
    else 'l'
  }

  /** strings.IndexByte in the alphabet. */
  function Rank(ch: char): int {
    if ch == 'q' then 0 else if ch == 'p' then 1 else if ch == 'z' then 2 else if ch == 'r' then 3
    else if ch == 'y' then 4 else if ch == '9' then 5
    else if ch == 'x' then 6 else if ch == '8' then 7 else if ch == 'g' then 8 else if ch == 'f' then 9
    else if ch == '2' then 10 else if ch == 't' then 11
    else if ch == 'v' then 12 else if ch == 'd' then 13 else if ch == 'w' then 14 else if ch == '0' then 15
    else if ch == 's' then 16 else if ch == '3' then 17
    else if ch == 'j' then 18 else if ch == 'n' then 19 else if ch == '5' then 20 else if ch == '4' then 21
    else if ch == 'k' then 22 else if ch == 'h' then 23
    else if ch == 'c' then 24 else if ch == 'e' then 25 else if ch == '6' then 26 else if ch == 'm' then 27
    else if ch == 'u' then 28 else if ch == 'a' then 29
    else if ch == '7' then 30 else if ch == 'l' then 31
    else -1
  }

  lemma {:induction false} RankOfLetter(v: nat)
    requires v < 32
    ensures Rank(Letter(v)) == v && Letter(v) != '1' && '!' <= Letter(v) <= '~' && LowerChar(Letter(v)) == Letter(v)
  {}

  lemma {:induction false} LetterOfRank(ch: char)
    requires Rank(ch) >= 0
    ensures Rank(ch) < 32 && Letter(Rank(ch)) == ch
  {}

  function LowerChar(ch: char): char {
    if 'A' <= ch <= 'Z' then (ch as int + 32) as char else ch
  }

  function UpperChar(ch: char): char {
    if 'a' <= ch <= 'z' then (ch as int - 32) as char else ch
  }

  lemma {:induction false} CaseDetermines(x: char, y: char)
    requires LowerChar(x) == LowerChar(y) && UpperChar(x) == x && UpperChar(y) == y
    ensures x == y
  {}

  function Lower(s: string): string {
    seq(|s|, i requires 0 <= i < |s| => LowerChar(s[i]))
  }

  function Upper(s: string): string {
    seq(|s|, i requires 0 <= i < |s| => UpperChar(s[i]))
  }

  function Letters(vs: seq<nat>): string {
    seq(|vs|, i requires 0 <= i < |vs| => Letter(vs[i]))
  }

  predicate AllLetters(t: string) {
    forall i :: 0 <= i < |t| ==> Rank(t[i]) >= 0
  }

  function Values(t: string): seq<nat>
    requires AllLetters(t)
  {
    seq(|t|, i requires 0 <= i < |t| => Rank(t[i]))
  }

  lemma {:induction false} ValuesOfLetters(vs: seq<nat>)
    requires Narrow(vs, WIDTH)
    ensures AllLetters(Letters(vs)) && Values(Letters(vs)) == vs
    ensures forall i :: 0 <= i < |vs| ==>
              Letters(vs)[i] != '1' && '!' <= Letters(vs)[i] <= '~' && LowerChar(Letters(vs)[i]) == Letters(vs)[i]
  {
    Powers();
    forall i | 0 <= i < |vs|
      ensures Rank(Letter(vs[i])) == vs[i] && Letter(vs[i]) != '1' && '!' <= Letter(vs[i]) <= '~'
      ensures LowerChar(Letter(vs[i])) == Letter(vs[i])
    {
      RankOfLetter(vs[i]);
    }
  }

  lemma {:induction false} LettersOfValues(t: string)
    requires AllLetters(t)
    ensures Letters(Values(t)) == t && Narrow(Values(t), WIDTH)
  {
    Powers();
    forall i | 0 <= i < |t|
      ensures Letter(Rank(t[i])) == t[i] && Rank(t[i]) < 32
    {
      LetterOfRank(t[i]);
    }
  }

  /** strings.LastIndexByte of the separator. */
  function LastOne(s: string): int {
    if s == [] then -1 else if s[|s| - 1] == '1' then |s| - 1 else LastOne(s[..|s| - 1])
  }

  lemma {:induction false} LastOneIs(s: string, k: nat)
    requires k < |s| && s[k] == '1' && forall i :: k < i < |s| ==> s[i] != '1'
    ensures LastOne(s) == k
  {
    if k < |s| - 1 { LastOneIs(s[..|s| - 1], k); }
  }

  lemma {:induction false} LastOneFound(s: string)
    ensures -1 <= LastOne(s) < |s| && (LastOne(s) >= 0 ==> s[LastOne(s)] == '1')
  {
    if s != [] && s[|s| - 1] != '1' { LastOneFound(s[..|s| - 1]); }
  }

  // ---- Encoding and decoding ----

  /** bech32Expand: the high bits of the prefix, a zero, and its low bits. */
  function Expand(hrp: string): seq<nat> {
    var high := seq(|hrp|, i requires 0 <= i < |hrp| => hrp[i] as int / 32);
    var low := seq(|hrp|, i requires 0 <= i < |hrp| => hrp[i] as int % 32);
    high + [0] + low
  }

  /** bech32mEncode. */
  function Encoded(hrp: string, data: seq<nat>): string {
    hrp + "1" + Letters(data + CheckSymbols(Run(1, Expand(hrp) + data)))
  }

  predicate Sane(s: string) {
    8 <= |s| <= 90 && (s == Lower(s) || s == Upper(s)) && forall i :: 0 <= i < |s| ==> '!' <= s[i] <= '~'
  }

  /** The rest of bech32mDecode, on the lower-case string. */
  function DecodedLower(l: string): Result<(string, seq<nat>)> {
    var sep := LastOne(l);
    LastOneFound(l);
    if sep < 1 || sep + 7 > |l| || !AllLetters(l[sep + 1..]) then Err
    else
      var vs := Values(l[sep + 1..]);
      if Run(1, Expand(l[..sep]) + vs) != CHECK then Err else Ok((l[..sep], vs[..|vs| - 6]))
  }

  /** bech32mDecode. */
  function Decoded(s: string): Result<(string, seq<nat>)> {
    if !Sane(s) then Err else DecodedLower(Lower(s))
  }

  // ---- Addresses ----

  predicate Nonzero(a: seq<nat>) {
    exists i :: 0 <= i < |a| && a[i] != 0
  }

  predicate IsAddress(a: seq<nat>) {
    |a| == 32 && Narrow(a, 8) && Nonzero(a)
  }

  /** QdayAddress.String. */
  function TextOf(a: seq<nat>): string {
    Encoded("qday", [1] + Padded(a, 8, WIDTH))
  }

  /** ParseQdayAddress, apart from the legacy form of 141 characters. */
  function Parsed(s: string): Result<seq<nat>> {
    if |s| != 64 then Err
    else
      var d := Decoded(s);
      if d.Err? || d.value.0 != "qday" || |d.value.1| != 53 || d.value.1[0] != 1 then Err
      else
        var b := Unpadded(d.value.1[1..], WIDTH, 8);
        if b.Err? || |b.value| != 32 || !Nonzero(b.value) then Err else b
  }

  lemma {:induction false} ExpandNarrow()
    ensures Narrow(Expand("qday"), WIDTH)
  {
    Powers();
  }

  /** The 59 symbols of an address: version, payload and checksum. */
  function SymbolsOf(a: seq<nat>): seq<nat> {
    var data := [1] + Padded(a, 8, WIDTH);
    data + CheckSymbols(Run(1, Expand("qday") + data))
  }

  lemma {:induction false} PaddedShape(a: seq<nat>)
    requires |a| == 32 && Narrow(a, 8)
    ensures |Padded(a, 8, WIDTH)| == 52 && Narrow([1] + Padded(a, 8, WIDTH), WIDTH)
  {
    PadRoundTrip(a, 8, WIDTH);
    Powers();
    assert |a| * 8 == 256;
  }

  lemma {:induction false} Joined(e: seq<nat>, data: seq<nat>, ws: seq<nat>)
    requires Narrow(data, WIDTH) && Narrow(ws, WIDTH)
    ensures Run(1, e + (data + ws)) == Run(Run(1, e + data), ws) && Narrow(data + ws, WIDTH)
  {
    RunAppend(1, e + data, ws);
    assert (e + data) + ws == e + (data + ws);
  }

  /** Version and payload are completed to a valid checksum. */
  lemma {:induction false} SymbolsCheck(a: seq<nat>)
    requires |a| == 32 && Narrow(a, 8)
    ensures |SymbolsOf(a)| == 59 && Narrow(SymbolsOf(a), WIDTH) && SymbolsOf(a)[..53] == [1] + Padded(a, 8, WIDTH)
    ensures Run(1, Expand("qday") + SymbolsOf(a)) == CHECK
  {
    var e, data := Expand("qday"), [1] + Padded(a, 8, WIDTH);
    PaddedShape(a);
    ExpandNarrow();
    RunState(e, data);
    CheckSymbolsFit(Run(1, e + data));
    Joined(e, data, CheckSymbols(Run(1, e + data)));
  }

  lemma {:induction false} TextPieces(a: seq<nat>)
    requires |a| == 32 && Narrow(a, 8)
    ensures var t := TextOf(a); |t| == 64 && t[..4] == "qday" && t[4] == '1' && t[5..] == Letters(SymbolsOf(a))
  {
    SymbolsCheck(a);
    assert TextOf(a) == "qday" + "1" + Letters(SymbolsOf(a));
  }

  predicate PlainChar(ch: char) {
    '!' <= ch <= '~' && LowerChar(ch) == ch
  }

  /** A string of letters behind a plain prefix and the separator needs no change of case. */
  lemma {:induction false} PlainText(t: string, vs: seq<nat>)
    requires |t| == 64 && Narrow(vs, WIDTH) && |vs| == 59 && t[5..] == Letters(vs) && t[4] == '1'
    requires forall i :: 0 <= i < 4 ==> PlainChar(t[i])
    ensures Sane(t) && Lower(t) == t && LastOne(t) == 4
  {
    ValuesOfLetters(vs);
    forall i | 0 <= i < 64
      ensures PlainChar(t[i]) && (i > 4 ==> t[i] != '1')
    {
      if i > 4 { assert t[i] == t[5..][i - 5] == Letters(vs)[i - 5]; }
    }
    LastOneIs(t, 4);
  }

  lemma {:induction false} TextShape(a: seq<nat>)
    requires |a| == 32 && Narrow(a, 8)
    ensures var t := TextOf(a); |t| == 64 && Sane(t) && Lower(t) == t && LastOne(t) == 4
  {
    hide TextOf, SymbolsOf, Run;
    var t := TextOf(a);
    TextPieces(a);
    SymbolsCheck(a);
    assert t[0] == t[..4][0] == 'q' && t[1] == t[..4][1] == 'd' && t[2] == t[..4][2] == 'a' && t[3] == t[..4][3] == 'y';
    PlainText(t, SymbolsOf(a));
  }

  /** Parsing the text of an address gives the address. */
  lemma {:induction false} ParseText(a: seq<nat>)
    requires IsAddress(a)
    ensures Parsed(TextOf(a)) == Ok(a)
  {
    var t, vs := TextOf(a), SymbolsOf(a);
    TextPieces(a);
    TextShape(a);
    SymbolsCheck(a);
    ValuesOfLetters(vs);
    PadRoundTrip(a, 8, WIDTH);
    assert Decoded(t) == Ok(("qday", vs[..53]));
    assert vs[..53][1..] == Padded(a, 8, WIDTH);
  }

  lemma {:induction false} RunState(e: seq<nat>, data: seq<nat>)
    requires Narrow(e, WIDTH) && Narrow(data, WIDTH)
    ensures State(Run(1, e + data))
  {
    Powers();
    RunBounded(1, e + data);
  }

  lemma {:induction false} SplitCheck(e: seq<nat>, data: seq<nat>, ws: seq<nat>)
    requires Narrow(e, WIDTH) && Narrow(data, WIDTH) && Narrow(ws, WIDTH) && |ws| == 6
    requires Run(1, e + (data + ws)) == CHECK
    ensures ws == CheckSymbols(Run(1, e + data))
  {
    RunState(e, data);
    Joined(e, data, ws);
    CheckSymbolsIff(Run(1, e + data), ws);
  }

  lemma {:induction false} AcceptedPrefix(s: string)
    requires Parsed(s).Ok?
    ensures var l := Lower(s);
            && Sane(s) && |l| == 64 && LastOne(l) == 4 && l[..4] == "qday" && l[4] == '1'
            && DecodedLower(l).Ok? && DecodedLower(l) == Decoded(s)
  {
    var l := Lower(s);
    LastOneFound(l);
    assert Decoded(s).value.0 == l[..LastOne(l)];
  }

  /** What an accepted string looks like in lower case. */
  lemma {:induction false} AcceptedShape(s: string)
    requires Parsed(s).Ok?
    ensures var l := Lower(s);
            && Sane(s) && |l| == 64 && l[..4] == "qday" && l[4] == '1' && AllLetters(l[5..])
            && Run(1, Expand("qday") + Values(l[5..])) == CHECK && Values(l[5..])[0] == 1
            && Unpadded(Values(l[5..])[1..53], WIDTH, 8) == Parsed(s)
  {
    AcceptedPrefix(s);
    var vs := Values(Lower(s)[5..]);
    assert Decoded(s).value.1 == vs[..53];
    assert vs[..53][1..] == vs[1..53];
  }

  /** 59 symbols with a valid checksum are those of the address that they regroup to. */
  lemma {:induction false} SymbolsDetermine(vs: seq<nat>, a: seq<nat>)
    requires |vs| == 59 && Narrow(vs, WIDTH) && vs[0] == 1 && Unpadded(vs[1..53], WIDTH, 8) == Ok(a)
    requires Run(1, Expand("qday") + vs) == CHECK
    ensures vs == SymbolsOf(a) && Narrow(a, 8)
  {
    var data, ws := vs[..53], vs[53..];
    assert vs == data + ws && data == [1] + vs[1..53];
    ExpandNarrow();
    SplitCheck(Expand("qday"), data, ws);
    UnpadCanonical(vs[1..53], WIDTH, 8);
  }

  lemma {:induction false} Rejoin(l: string, hrp: string, t: string)
    requires |l| == 64 && l[..4] == hrp && l[4] == '1' && l[5..] == t
    ensures l == hrp + "1" + t
  {}

  /** Every accepted string is, in lower case, the text of its result. */
  lemma {:induction false} ParsedIsCanonical(s: string)
    requires Parsed(s).Ok?
    ensures IsAddress(Parsed(s).value) && Lower(s) == TextOf(Parsed(s).value)
  {
    AcceptedShape(s);
    var l, a := Lower(s), Parsed(s).value;
    LettersOfValues(l[5..]);
    SymbolsDetermine(Values(l[5..]), a);
    Rejoin(l, "qday", l[5..]);
  }

  lemma {:induction false} DifferOnce(vs: seq<nat>, ws: seq<nat>, k: nat)
    requires |vs| == |ws| && k < |vs| && forall j :: 0 <= j < |vs| && j != k ==> vs[j] == ws[j]
    ensures vs == vs[..k] + [vs[k]] + vs[k + 1..] && ws == vs[..k] + [ws[k]] + vs[k + 1..]
  {}

  lemma {:induction false} Around(e: seq<nat>, before: seq<nat>, v: nat, after: seq<nat>)
    ensures e + (before + [v] + after) == (e + before) + [v] + after
  {}

  lemma {:induction false} FirstState()
    ensures State(1)
  {
    Powers();
  }

  lemma {:induction false} SameCheck(e: seq<nat>, vs: seq<nat>, ws: seq<nat>, k: nat)
    requires Narrow(e, WIDTH) && Narrow(vs, WIDTH) && Narrow(ws, WIDTH) && |vs| == |ws| && k < |vs|
    requires forall j :: 0 <= j < |vs| && j != k ==> vs[j] == ws[j]
    requires Run(1, e + vs) == Run(1, e + ws)
    ensures vs == ws
  {
    hide Run, Pow2;
    var before, after := vs[..k], vs[k + 1..];
    FirstState();
    DifferOnce(vs, ws, k);
    Around(e, before, vs[k], after);
    Around(e, before, ws[k], after);
    OneErrorDetected(1, e + before, vs[k], ws[k], after);
  }

  /** Accepted strings that agree but for one position are equal in lower case. */
  lemma {:induction false} OneSymbolDetermined(s: string, t: string, i: nat)
    requires Parsed(s).Ok? && Parsed(t).Ok? && i < 64
    requires forall j :: 0 <= j < 64 && j != i ==> s[j] == t[j]
    ensures Lower(s) == Lower(t)
  {
    hide Parsed, Run, Unpadded;
    AcceptedShape(s);
    AcceptedShape(t);
    if i < 5 {
      assert forall j :: 5 <= j < 64 ==> Lower(s)[j] == LowerChar(s[j]) == LowerChar(t[j]) == Lower(t)[j];
      assert Lower(s)[5..] == Lower(t)[5..];
    } else {
      TailDetermined(Lower(s), Lower(t), i);
    }
    Rejoin(Lower(s), "qday", Lower(s)[5..]);
    Rejoin(Lower(t), "qday", Lower(t)[5..]);
  }

  lemma {:induction false} TailDetermined(l: string, m: string, i: nat)
    requires |l| == |m| == 64 && AllLetters(l[5..]) && AllLetters(m[5..]) && 5 <= i < 64
    requires forall j :: 0 <= j < 64 && j != i ==> l[j] == m[j]
    requires Run(1, Expand("qday") + Values(l[5..])) == Run(1, Expand("qday") + Values(m[5..]))
    ensures l[5..] == m[5..]
  {
    LettersOfValues(l[5..]);
    LettersOfValues(m[5..]);
    ExpandNarrow();
    assert forall j :: 0 <= j < 59 && j != i - 5 ==> l[5..][j] == l[5 + j] == m[5 + j] == m[5..][j];
    SameCheck(Expand("qday"), Values(l[5..]), Values(m[5..]), i - 5);
  }

  /** Strings in one case that agree in lower case and in the letter at k are equal. */
  lemma {:induction false} SameCase(s: string, t: string, k: nat)
    requires Sane(s) && Sane(t) && Lower(s) == Lower(t) && k < |s| && k < |t| && s[k] == t[k]
    requires 'a' <= LowerChar(s[k]) <= 'z'
    ensures s == t
  {
    assert |Lower(s)| == |s| && |Lower(t)| == |t|;
    assert Lower(s)[k] == LowerChar(s[k]) && Upper(s)[k] == UpperChar(s[k]) && Lower(t)[k] == LowerChar(t[k]);
    assert Upper(t)[k] == UpperChar(t[k]);
    if s != Lower(s) {
      assert s == Upper(s) && t == Upper(t);
      forall i | 0 <= i < |s|
        ensures s[i] == t[i]
      {
        assert LowerChar(s[i]) == Lower(s)[i] && LowerChar(t[i]) == Lower(t)[i] && UpperChar(s[i]) == Upper(s)[i];
        assert UpperChar(t[i]) == Upper(t)[i];
        CaseDetermines(s[i], t[i]);
      }
    }
  }

  lemma {:induction false} FirstLetters(s: string)
    requires Parsed(s).Ok?
    ensures |s| == 64 && Sane(s) && LowerChar(s[0]) == 'q' && LowerChar(s[1]) == 'd'
  {
    AcceptedShape(s);
    assert Lower(s)[0] == Lower(s)[..4][0] && Lower(s)[1] == Lower(s)[..4][1];
  }

  /** Changing any single character of an accepted string makes it rejected. */
  lemma {:induction false} SingleErrorRejected(s: string, t: string, i: nat)
    requires Parsed(s).Ok? && |t| == 64 && i < 64 && s[i] != t[i]
    requires forall j :: 0 <= j < 64 && j != i ==> s[j] == t[j]
    ensures Parsed(t).Err?
  {
    if Parsed(t).Ok? {
      OneSymbolDetermined(s, t, i);
      FirstLetters(s);
      FirstLetters(t);
      SameCase(s, t, if i == 0 then 1 else 0);
    }
  }

  // ---- The encoder and the parser as they run ----

  lemma {:induction false} DigitAt(n: nat, len: nat, j: nat)
    requires j < len
    ensures Digits(n, WIDTH, len)[j] == Low(Shr(n, WIDTH * (len - 1 - j)), WIDTH)
    decreases len
  {
    if j < len - 1 {
      DigitAt(Shr(n, WIDTH), len - 1, j);
      ShrAdd(n, WIDTH, WIDTH * (len - 2 - j));
    }
  }

  method WriteLetters(vs: seq<nat>) returns (t: string)
    ensures t == Letters(vs)
  {
    t := "";
    for i := 0 to |vs|
      invariant |t| == i && forall j :: 0 <= j < i ==> t[j] == Letter(vs[j])
    {
      t := t + [Letter(vs[i])];
    }
  }

  /** The check symbols, most significant first. */
  method WriteCheck(check: nat) returns (t: string)
    ensures t == Letters(Digits(check, WIDTH, 6))
  {
    t := "";
    for i := 0 to 6
      invariant |t| == i && forall j :: 0 <= j < i ==> t[j] == Letter(Digits(check, WIDTH, 6)[j])
    {
      DigitAt(check, 6, i);
      t := t + [Letter(Low(Shr(check, WIDTH * (5 - i)), WIDTH))];
    }
  }

  /** bech32mEncode. */
  method Encode(hrp: string, data: seq<nat>) returns (s: string)
    requires Narrow(data, WIDTH)
    ensures s == Encoded(hrp, data)
  {
    hide Run, Digits;
    var values := Expand(hrp) + data;
    var check := Polymod(values + Zeros(6));
    RunAppend(1, values, Zeros(6));
    var t := WriteLetters(data);
    var u := WriteCheck(Xor(check, CHECK));
    assert t + u == Letters(data + CheckSymbols(Run(1, values)));
    s := hrp + "1" + t + u;
  }

  method CheckCharacters(s: string) returns (ok: bool)
    ensures ok <==> forall i :: 0 <= i < |s| ==> '!' <= s[i] <= '~'
  {
    for i := 0 to |s|
      invariant forall j :: 0 <= j < i ==> '!' <= s[j] <= '~'
    {
      if s[i] < '!' || s[i] > '~' {
        return false;
      }
    }
    ok := true;
  }

  method ReadSymbols(t: string) returns (data: seq<nat>, ok: bool)
    ensures ok <==> AllLetters(t)
    ensures ok ==> data == Values(t)
  {
    data := [];
    for i := 0 to |t|
      invariant |data| == i && forall j :: 0 <= j < i ==> Rank(t[j]) >= 0 && data[j] == Rank(t[j])
    {
      var v := Rank(t[i]);
      if v < 0 {
        return data, false;
      }
      data := data + [v];
    }
    ok := true;
  }

  method DecodeLower(l: string) returns (r: Result<(string, seq<nat>)>)
    ensures r == DecodedLower(l)
  {
    var sep := LastOne(l);
    LastOneFound(l);
    if sep < 1 || sep + 7 > |l| {
      return Err;
    }
    var data, ok := ReadSymbols(l[sep + 1..]);
    if !ok {
      return Err;
    }
    var check := Polymod(Expand(l[..sep]) + data);
    if check != CHECK {
      return Err;
    }
    r := Ok((l[..sep], data[..|data| - 6]));
  }

  /** bech32mDecode. */
  method Decode(s: string) returns (r: Result<(string, seq<nat>)>)
    ensures r == Decoded(s)
  {
    var plain := CheckCharacters(s);
    if |s| < 8 || |s| > 90 || (s != Lower(s) && s != Upper(s)) || !plain {
      return Err;
    }
    r := DecodeLower(Lower(s));
  }

  /** ParseQdayAddress, from where the legacy form has been dealt with. */
  method ParseBech32(s: string) returns (r: Result<seq<nat>>)
    ensures r == Parsed(s)
  {
    if |s| != 64 {
      return Err;
    }
    var d := Decode(s);
    if d.Err? || d.value.0 != "qday" || |d.value.1| != 53 || d.value.1[0] != 1 {
      return Err;
    }
    DecodedNarrow(s);
    var b := ConvertBits(d.value.1[1..], WIDTH, 8, false);
    if b.Err? || |b.value| != 32 || !Nonzero(b.value) {
      return Err;
    }
    r := b;
  }

  lemma {:induction false} DecodedNarrow(s: string)
    requires Decoded(s).Ok?
    ensures Narrow(Decoded(s).value.1, WIDTH)
  {
    var l := Lower(s);
    LastOneFound(l);
    var t := l[LastOne(l) + 1..];
    LettersOfValues(t);
    assert Decoded(s).value.1 == Values(t)[..|t| - 6];
  }

  /** QdayAddress.String. */
  method Format(a: seq<nat>) returns (s: string)
    requires |a| == 32 && Narrow(a, 8)
    ensures s == TextOf(a)
  {
    var data := ConvertBits(a, 8, WIDTH, true);
    PaddedShape(a);
    s := Encode("qday", [1] + data.value);
  }
}
