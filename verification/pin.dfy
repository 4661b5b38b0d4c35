/** PIN handling of the client: the six-digit format check, done with the
    regular expression `^\d{6}$`, and the request bodies of PIN verification
    and PIN update. The PIN cipher is outside this model and is passed in as
    `encryptPin`; what is posted is returned as a `PinRequest`. */
module Pin {
  import opened Wrappers

  // ---------------------------------------------------------------------------
  // The fragment of RE2 syntax that `^\d{6}$` uses.

  datatype Regex =
    | BeginText                        // ^  (no multi-line flag: start of text only)
    | EndText                          // $  (no multi-line flag: end of text only)
    | Digit                            // \d (ASCII digits only)
    | Repeat(body: Regex, count: nat)  // {n}
    | Concat(first: Regex, second: Regex)

  /** Position-level steps a regex of this fragment is made of. */
  datatype Atom = AtBegin | AtEnd | AnyDigit

  /** `pinRegex`, parsed. */
  const PinRegex: Regex := Concat(BeginText, Concat(Repeat(Digit, 6), EndText))

  function RepeatAtoms(a: seq<Atom>, n: nat): seq<Atom>
  {
    if n == 0 then [] else a + RepeatAtoms(a, n - 1)
  }

  function Atoms(r: Regex): seq<Atom>
  {
    match r
    case BeginText => [AtBegin]
    case EndText => [AtEnd]
    case Digit => [AnyDigit]
    case Repeat(b, n) => RepeatAtoms(Atoms(b), n)
    case Concat(a, b) => Atoms(a) + Atoms(b)
  }

  predicate IsAsciiDigit(c: char)
  {
    '0' <= c <= '9'
  }

  /** The atoms match `s` from position `i` on (the match may end before the end of `s`). */
  predicate MatchesFrom(atoms: seq<Atom>, s: string, i: nat)
    requires i <= |s|
    decreases |atoms|
  {
    if atoms == [] then true
    else
      match atoms[0]
      case AtBegin => i == 0 && MatchesFrom(atoms[1..], s, i)
      case AtEnd => i == |s| && MatchesFrom(atoms[1..], s, i)
      case AnyDigit => i < |s| && IsAsciiDigit(s[i]) && MatchesFrom(atoms[1..], s, i + 1)
  }

  /** `Regexp.MatchString`: the regex matches some substring of `s`. */
  predicate MatchString(r: Regex, s: string)
  {
    exists start: nat | start <= |s| :: MatchesFrom(Atoms(r), s, start)
  }

  function NatText(n: nat): string
  {
    var d := [(48 + n % 10) as char];
    if n < 10 then d else NatText(n / 10) + d
  }

  /** `Regexp.String`: the source text of the expression. */
  function Source(r: Regex): string
  {
    match r
    case BeginText => "^"
    case EndText => "$"
    case Digit => "\\d"
    case Repeat(b, n) => Source(b) + "{" + NatText(n) + "}"
    case Concat(a, b) => Source(a) + Source(b)
  }

  /** Go's `%q` on a printable ASCII string: quotes around it, with backslash and quote escaped. */
  function Quote(s: string): string
  {
    "\"" + Escape(s) + "\""
  }

  function Escape(s: string): string
  {
    if s == [] then []
    else (if s[0] == '\\' || s[0] == '"' then ['\\', s[0]] else [s[0]]) + Escape(s[1..])
  }

  // ---------------------------------------------------------------------------
  // What the pattern means.

  /** Exactly six characters, each an ASCII digit. */
  predicate IsSixDigitPin(s: string)
  {
    |s| == 6 && forall i :: 0 <= i < |s| ==> IsAsciiDigit(s[i])
  }

  /** `\d{n}$` from position `i`: exactly `n` characters remain and all are digits. */
  lemma {:induction false} DigitsThenEnd(n: nat, s: string, i: nat)
    requires i <= |s|
    ensures MatchesFrom(RepeatAtoms([AnyDigit], n) + [AtEnd], s, i)
      <==> i + n == |s| && forall k :: i <= k < |s| ==> IsAsciiDigit(s[k])
  {
    var atoms := RepeatAtoms([AnyDigit], n) + [AtEnd];
    if n == 0 {
      assert atoms == [AtEnd];
      assert atoms[1..] == [];
    } else {
      assert atoms[0] == AnyDigit;
      assert atoms[1..] == RepeatAtoms([AnyDigit], n - 1) + [AtEnd];
      if i < |s| {
        DigitsThenEnd(n - 1, s, i + 1);
      }
    }
  }

  /** `^\d{6}$` under Go's RE2 semantics accepts exactly the six-ASCII-digit strings:
      `^` pins the match to the start, and `$` to the end of the text (a trailing
      newline is not skipped). */
  lemma {:induction false} PinRegexMeaning(s: string)
    ensures MatchString(PinRegex, s) <==> IsSixDigitPin(s)
  {
    var rest := RepeatAtoms([AnyDigit], 6) + [AtEnd];
    assert Atoms(PinRegex) == [AtBegin] + rest;
    assert ([AtBegin] + rest)[1..] == rest;
    DigitsThenEnd(6, s, 0);
    if MatchString(PinRegex, s) {
      var start: nat :| start <= |s| && MatchesFrom(Atoms(PinRegex), s, start);
      assert start == 0;
    }
    if IsSixDigitPin(s) {
      assert MatchesFrom(Atoms(PinRegex), s, 0);
    }
  }

  /** The message of the format error: it names the pattern, quoted. */
  const PinPatternMessage: string := "pin must match regex pattern " + Quote(Source(PinRegex))

  /** `ValidatePinPattern`: nil (here `None`) for a six-digit PIN, otherwise
      an error naming the pattern. */
  function ValidatePinPattern(pin: string): (r: Option<Error>)
    ensures r.None? <==> IsSixDigitPin(pin)
    ensures r.Some? ==> r.value == Message(PinPatternMessage)
  {
    PinRegexMeaning(pin);
    if !MatchString(PinRegex, pin) then Some(Message(PinPatternMessage)) else None
  }

  /** Sample PINs the pattern accepts and rejects. */
  lemma PinPatternExamples()
    ensures ValidatePinPattern("123456").None?
    ensures ValidatePinPattern("12345").Some? && ValidatePinPattern("1234567").Some?
    ensures ValidatePinPattern("1a2b3c").Some? && ValidatePinPattern("123456\n").Some?
  {
  }

  /** The format error quotes the pattern's source text the way Go's `%q` does. */
  lemma PinPatternMessageText()
    ensures PinPatternMessage == "pin must match regex pattern \"^\\\\d{6}$\""
  {
    var src := "^\\d{6}$";
    assert NatText(6) == "6";
    assert Source(PinRegex) == src;
    assert Escape(src[7..]) == "";
    assert Escape(src[6..]) == "$";
    assert Escape(src[5..]) == "}$";
    assert Escape(src[4..]) == "6}$";
    assert Escape(src[3..]) == "{6}$";
    assert Escape(src[2..]) == "d{6}$";
    assert Escape(src[1..]) == "\\\\d{6}$";
    assert Escape(src) == "^\\\\d{6}$";
  }

  // ---------------------------------------------------------------------------
  // PIN requests.

  /** A POST of a JSON object whose values are PIN ciphertexts. */
  datatype PinRequest = PinRequest(path: string, body: map<string, string>)

  const VerifyPath: string := "/pin/verify"
  const UpdatePath: string := "/pin/update"

  /** `VerifyPin`: the one-key body `{pin}` posted to the verification endpoint.
      The PIN is not format-checked first: any string is encrypted and sent. */
  function VerifyPin(pin: string, encryptPin: string -> string): (req: PinRequest)
    ensures req.path == VerifyPath
    ensures req.body.Keys == {"pin"} && req.body["pin"] == encryptPin(pin)
  {
    PinRequest(VerifyPath, map["pin" := encryptPin(pin)])
  }

  /** `ModifyPin`: builds the update body key by key. `encrypted` lists the
      plaintexts handed to the cipher, in call order. The PINs are not
      format-checked first. */
  method ModifyPin(pin: string, newPin: string, encryptPin: string -> string)
    returns (req: PinRequest, encrypted: seq<string>)
    ensures req.path == UpdatePath
    ensures "pin" in req.body && req.body["pin"] == encryptPin(newPin)
    ensures "old_pin" in req.body <==> pin != ""
    ensures "old_pin" in req.body ==> req.body["old_pin"] == encryptPin(pin)
    ensures req.body.Keys <= {"old_pin", "pin"}
    // the old PIN, when given, is encrypted before the new one; nothing else is
    ensures encrypted == (if pin != "" then [pin, newPin] else [newPin])
  {
    var body: map<string, string> := map[];
    encrypted := [];
    if pin != "" {
      body := body["old_pin" := encryptPin(pin)];
      encrypted := encrypted + [pin];
    }
    body := body["pin" := encryptPin(newPin)];
    encrypted := encrypted + [newPin];
    req := PinRequest(UpdatePath, body);
  }
}
