/**
 * The serial setup console of the Wi-Fi credentials reader: the matcher that
 * listens on Serial1 for a 16-byte magic code before handing that port to the
 * setup tester, and the one-character commands of the setup port, with the
 * 'w' dialogue that collects an SSID, a security type and a password.
 *
 * The platform branch modelled is the one that listens for the magic code
 * (PLATFORM_ID > 2): no WEP warning, and the word "device" in the greeting.
 */
module WifiSetup {
  import opened Wrappers

  // ---------------------------------------------------------------------
  // The magic-code matcher

  /** The matcher's two fields: how much of the code has been seen, and whether it was seen whole. */
  datatype Listener = Listener(magicPos: nat, serial1Enabled: bool)

  predicate WellFormed(code: seq<int>, l: Listener) {
    l.magicPos <= |code| && (l.serial1Enabled <==> l.magicPos == |code|)
  }

  const Start := Listener(0, false)

  /** A code to listen for: non-empty, and made of values a read can return. */
  predicate IsCode(code: seq<int>) {
    |code| > 0 && forall i :: 0 <= i < |code| ==> code[i] >= 0
  }

  /**
   * What one read() does with the Serial1 value c (negative when nothing was
   * available), listening for `code`.
   */
  function ListenStep(code: seq<int>, l: Listener, c: int): (r: Listener)
    requires WellFormed(code, l)
    ensures WellFormed(code, r)
  {
    if l.serial1Enabled || c < 0 then l
    else if c == code[l.magicPos] then Listener(l.magicPos + 1, l.magicPos + 1 == |code|)
    else Listener(0, false)
  }

  /** The matcher after the values cs, oldest first. */
  function Listen(code: seq<int>, cs: seq<int>): (r: Listener)
    requires |code| > 0
    ensures WellFormed(code, r)
  {
    if cs == [] then Start else ListenStep(code, Listen(code, cs[..|cs| - 1]), cs[|cs| - 1])
  }

  /** A read with no data changes nothing; once enabled, the matcher never changes again. */
  lemma {:induction false} ListenStepFrame(code: seq<int>, l: Listener, c: int)
    requires WellFormed(code, l)
    ensures c < 0 ==> ListenStep(code, l, c) == l
    ensures l.serial1Enabled ==> ListenStep(code, l, c) == l
    ensures !l.serial1Enabled ==> l.magicPos < |code|
    ensures !l.serial1Enabled && c >= 0 ==>
      ListenStep(code, l, c).magicPos == (if c == code[l.magicPos] then l.magicPos + 1 else 0)
  {
  }

  lemma ListenPrefixStep(code: seq<int>, cs: seq<int>, n: nat)
    requires |code| > 0 && n < |cs|
    ensures Listen(code, cs[..n + 1]) == ListenStep(code, Listen(code, cs[..n]), cs[n])
  {
    assert cs[..n + 1][..n] == cs[..n];
  }

  /**
   * While not enabled, the last magicPos values are the start of the code,
   * and the matcher stood at 0 just before them.
   */
  lemma {:induction false} MatchedSuffix(code: seq<int>, cs: seq<int>, k: nat)
    requires |code| > 0 && (forall i :: 0 <= i < |cs| ==> cs[i] >= 0)
    requires !Listen(code, cs).serial1Enabled && k == Listen(code, cs).magicPos
    ensures k <= |cs| && cs[|cs| - k..] == code[..k]
    ensures Listen(code, cs[..|cs| - k]).magicPos == 0
  {
    if cs == [] {
      return;
    }
    var p := cs[..|cs| - 1];
    var c := cs[|cs| - 1];
    assert cs == p + [c];
    ListenSnoc(code, p, c);
    var l := Listen(code, p);
    assert !l.serial1Enabled;
    var k' := l.magicPos;
    MatchedSuffix(code, p, k');
    if c == code[k'] {
      assert k == k' + 1;
      SuffixGrows(code, p, c, k');
    } else {
      assert k == 0;
      assert cs[..|cs|] == cs;
    }
  }

  /** A matched suffix of length k followed by the code's next value is a matched suffix of length k + 1. */
  lemma SuffixGrows(code: seq<int>, p: seq<int>, c: int, k: nat)
    requires k < |code| && k <= |p| && p[|p| - k..] == code[..k] && c == code[k]
    ensures (p + [c])[|p| + 1 - (k + 1)..] == code[..k + 1]
    ensures (p + [c])[..|p| + 1 - (k + 1)] == p[..|p| - k]
  {
    assert (p + [c])[|p| - k..] == p[|p| - k..] + [c];
    assert code[..k + 1] == code[..k] + [code[k]];
  }

  /** One more value read is one more step of the matcher. */
  lemma ListenSnoc(code: seq<int>, q: seq<int>, c: int)
    requires |code| > 0
    ensures Listen(code, q + [c]) == ListenStep(code, Listen(code, q), c)
  {
    assert (q + [c])[..|q|] == q;
  }

  /** From position 0, the first j values of the code bring the matcher to position j. */
  lemma {:induction false} FeedCode(code: seq<int>, p: seq<int>, j: nat)
    requires IsCode(code) && j <= |code| && Listen(code, p).magicPos == 0
    ensures Listen(code, p + code[..j]).magicPos == j
  {
    if j == 0 {
      assert p + code[..0] == p;
    } else {
      var q := p + code[..j - 1];
      FeedCode(code, p, j - 1);
      assert p + code[..j] == q + [code[j - 1]];
      ListenSnoc(code, q, code[j - 1]);
      var l := Listen(code, q);
      assert l.magicPos == j - 1 && !l.serial1Enabled;
      assert code[j - 1] >= 0;
    }
  }

  /** Once enabled after a prefix, the matcher stays enabled. */
  lemma {:induction false} EnabledStays(code: seq<int>, cs: seq<int>, n: nat)
    requires |code| > 0 && n <= |cs| && Listen(code, cs[..n]).serial1Enabled
    ensures Listen(code, cs).serial1Enabled
    decreases |cs| - n
  {
    if n < |cs| {
      ListenPrefixStep(code, cs, n);
      EnabledStays(code, cs, n + 1);
    } else {
      assert cs[..n] == cs;
    }
  }

  /** The code, received in a row from a moment when the matcher stood at 0. */
  ghost predicate CodeReceivedAt(code: seq<int>, cs: seq<int>, i: int)
    requires |code| > 0
  {
    0 <= i && i + |code| <= |cs| && cs[i..i + |code|] == code && Listen(code, cs[..i]).magicPos == 0
  }

  /** The value that enables the port completes the code. */
  lemma {:induction false} EnabledJustNow(code: seq<int>, cs: seq<int>)
    requires |code| > 0 && (forall i :: 0 <= i < |cs| ==> cs[i] >= 0) && cs != []
    requires !Listen(code, cs[..|cs| - 1]).serial1Enabled && Listen(code, cs).serial1Enabled
    ensures CodeReceivedAt(code, cs, |cs| - |code|)
  {
    var n := |code|;
    var p := cs[..|cs| - 1];
    var c := cs[|cs| - 1];
    var l := Listen(code, p);
    assert Listen(code, cs) == ListenStep(code, l, c);
    assert c == code[l.magicPos] && l.magicPos == n - 1;
    MatchedSuffix(code, p, n - 1);
    var i := |cs| - n;
    assert p[i..] == code[..n - 1];
    assert cs[i..i + n] == code by {
      forall j | 0 <= j < n ensures cs[i..i + n][j] == code[j] {
        if j < n - 1 {
          assert cs[i + j] == p[i..][j];
        }
      }
    }
    assert cs[..i] == p[..i];
  }

  lemma {:induction false} EnabledOnlyAfterCode(code: seq<int>, cs: seq<int>)
    requires |code| > 0 && (forall i :: 0 <= i < |cs| ==> cs[i] >= 0)
    requires Listen(code, cs).serial1Enabled
    ensures exists i :: CodeReceivedAt(code, cs, i)
  {
    var p := cs[..|cs| - 1];
    if Listen(code, p).serial1Enabled {
      EnabledOnlyAfterCode(code, p);
      var i :| CodeReceivedAt(code, p, i);
      assert cs[i..i + |code|] == p[i..i + |code|];
      assert cs[..i] == p[..i];
      assert CodeReceivedAt(code, cs, i);
    } else {
      EnabledJustNow(code, cs);
    }
  }

  lemma {:induction false} CodeEnables(code: seq<int>, cs: seq<int>, i: int)
    requires IsCode(code) && CodeReceivedAt(code, cs, i)
    ensures Listen(code, cs).serial1Enabled
  {
    var n := |code|;
    FeedCode(code, cs[..i], n);
    assert cs[..i] + code[..n] == cs[..i + n];
    EnabledStays(code, cs, i + n);
  }

  /**
   * The port is enabled exactly when the code's values arrived in a row,
   * starting at a moment when the matcher stood at 0.
   */
  lemma {:induction false} EnabledIffCodeReceived(code: seq<int>, cs: seq<int>)
    requires IsCode(code) && (forall i :: 0 <= i < |cs| ==> cs[i] >= 0)
    ensures Listen(code, cs).serial1Enabled <==> exists i :: CodeReceivedAt(code, cs, i)
  {
    if Listen(code, cs).serial1Enabled {
      EnabledOnlyAfterCode(code, cs);
    }
    if i :| CodeReceivedAt(code, cs, i) {
      CodeEnables(code, cs, i);
    }
  }

  const MagicCode: seq<int> :=
    [0xe1, 0x63, 0x57, 0x3f, 0xe7, 0x87, 0xc2, 0xa6, 0x85, 0x20, 0xa5, 0x6c, 0xe3, 0x04, 0x9e, 0xa0]

  /**
   * The matcher does not re-test the byte that broke a partial match: a
   * stray 0xe1 in front of the magic code leaves the port disabled.
   */
  lemma StrayFirstByteHidesCode()
    ensures !Listen(MagicCode, [0xe1] + MagicCode).serial1Enabled
  {
    var cs := [0xe1] + MagicCode;
    assert cs[..1] == [0xe1];
    assert Listen(MagicCode, cs[..1]).magicPos == 1;
    assert !CodeReceivedAt(MagicCode, cs, 0) by {
      assert cs[0..16][1] != MagicCode[1];
    }
    assert !CodeReceivedAt(MagicCode, cs, 1);
    assert forall i :: CodeReceivedAt(MagicCode, cs, i) ==> i == 0 || i == 1;
    assert IsCode(MagicCode);
    EnabledIffCodeReceived(MagicCode, cs);
  }

  // ---------------------------------------------------------------------
  // The setup console

  /** The calls the console makes into the rest of the system. */
  datatype SystemCall =
    | Connect(ssid: Option<seq<char>>, password: Option<seq<char>>, securityType: nat)
    | ShowDeviceId
    | ShowMacAddress
    | SerialFirmwareUpdate
    | ShowModuleInfo

  const SsidMax := 32
  const PasswordMax := 64

  function Zeros(n: nat): (r: seq<char>)
    ensures |r| == n && forall i :: 0 <= i < n ==> r[i] == '\0'
  {
    seq(n, _ => '\0')
  }

  function Min(a: nat, b: nat): nat {
    if a < b then a else b
  }

  /**
   * What reading one typed line into buf does: at most maxLen characters of
   * the line, then a terminating NUL; the rest of buf is left as it was.
   */
  function ReadInto(buf: seq<char>, line: seq<char>, maxLen: nat): (r: seq<char>)
    requires maxLen < |buf|
    ensures |r| == |buf|
    ensures forall i :: 0 <= i < Min(|line|, maxLen) ==> r[i] == line[i]
    ensures r[Min(|line|, maxLen)] == '\0'
    ensures forall i :: Min(|line|, maxLen) < i < |buf| ==> r[i] == buf[i]
  {
    var n := Min(|line|, maxLen);
    line[..n] + ['\0'] + buf[n + 1..]
  }

  /** The first character that reading a line into a one-character buffer leaves there. */
  function FirstChar(line: seq<char>): char {
    if line == [] then '\0' else line[0]
  }

  predicate IsSecurityDigit(ch: char) {
    '0' <= ch <= '3'
  }

  /** The index of the first typed line the security prompt accepts. */
  function SecurityAnswer(lines: seq<seq<char>>): (r: Option<nat>)
    ensures r.Some? ==> r.value < |lines| && IsSecurityDigit(FirstChar(lines[r.value]))
    ensures r.Some? ==> forall j :: 0 <= j < r.value ==> !IsSecurityDigit(FirstChar(lines[j]))
    ensures r.None? ==> forall j :: 0 <= j < |lines| ==> !IsSecurityDigit(FirstChar(lines[j]))
  {
    if lines == [] then None
    else if IsSecurityDigit(FirstChar(lines[0])) then Some(0)
    else match SecurityAnswer(lines[1..])
      case None => None
      case Some(k) => Some(k + 1)
  }

  datatype Credentials = Credentials(ssid: seq<char>, password: seq<char>, securityType: nat)

  /**
   * The 'w' dialogue over the lines the user types: an SSID line, security
   * lines until one starts with a digit 0..3, then a password line when the
   * security type is not 0. The result carries the buffers handed to the
   * connect callback and the number of lines used; None while input is missing.
   */
  function CredentialsDialogue(lines: seq<seq<char>>): Option<(Credentials, nat)> {
    if lines == [] then None
    else match SecurityAnswer(lines[1..])
      case None => None
      case Some(k) =>
        var ssid := ReadInto(Zeros(SsidMax + 1), lines[0], SsidMax);
        var securityType := FirstChar(lines[k + 1]) as int - '0' as int;
        if securityType == 0 then Some((Credentials(ssid, Zeros(PasswordMax + 1), 0), k + 2))
        else if k + 2 < |lines| then
          Some((Credentials(ssid, ReadInto(Zeros(PasswordMax + 1), lines[k + 2], PasswordMax), securityType), k + 3))
        else None
  }

  /**
   * The dialogue's promises: the security type is the accepted digit and lies
   * in 0..3, every earlier security answer was refused, the SSID holds at most
   * 32 characters and the password at most 64, and the password is read, and
   * otherwise left all zero, exactly as the security type says.
   */
  lemma {:induction false} DialogueProperties(lines: seq<seq<char>>)
    requires CredentialsDialogue(lines).Some?
    ensures var (c, used) := CredentialsDialogue(lines).value;
      var k := SecurityAnswer(lines[1..]).value;
      && 0 <= c.securityType <= 3
      && c.securityType == FirstChar(lines[k + 1]) as int - '0' as int
      && (forall j :: 1 <= j < k + 1 ==> !IsSecurityDigit(FirstChar(lines[j])))
      && |c.ssid| == SsidMax + 1 && c.ssid[SsidMax] == '\0'
      && c.ssid == ReadInto(Zeros(SsidMax + 1), lines[0], SsidMax)
      && |c.password| == PasswordMax + 1 && c.password[PasswordMax] == '\0'
      && (c.securityType == 0 <==> c.password == Zeros(PasswordMax + 1) && used == k + 2)
      && (c.securityType > 0 ==>
            used == k + 3 && c.password == ReadInto(Zeros(PasswordMax + 1), lines[k + 2], PasswordMax))
  {
    var k := SecurityAnswer(lines[1..]).value;
    assert lines[1..][k] == lines[k + 1];
    forall j | 1 <= j < k + 1 ensures !IsSecurityDigit(FirstChar(lines[j])) {
      assert lines[1..][j - 1] == lines[j];
    }
  }

  /** The dialogue has no result while the SSID line or an accepted security line is missing. */
  lemma DialogueIncomplete(lines: seq<seq<char>>)
    requires lines == [] || SecurityAnswer(lines[1..]).None?
             || var t := FirstChar(lines[SecurityAnswer(lines[1..]).value + 1]) as int - '0' as int;
                t > 0 && |lines| <= SecurityAnswer(lines[1..]).value + 2
    ensures CredentialsDialogue(lines).None?
  {
  }

  /** The dialogue's result, from the lines the console read at each step. */
  lemma DialogueComplete(lines: seq<seq<char>>, k: nat, ssid: seq<char>, t: int, password: seq<char>, used: nat)
    requires lines != [] && SecurityAnswer(lines[1..]) == Some(k)
    requires ssid == ReadInto(Zeros(SsidMax + 1), lines[0], SsidMax)
    requires t == FirstChar(lines[k + 1]) as int - '0' as int
    requires t <= 0 ==> password == Zeros(PasswordMax + 1) && used == k + 2
    requires t > 0 ==> k + 2 < |lines| && password == ReadInto(Zeros(PasswordMax + 1), lines[k + 2], PasswordMax)
                       && used == k + 3
    ensures 0 <= t <= 3
    ensures CredentialsDialogue(lines) == Some((Credentials(ssid, password, t), used))
  {
    assert lines[1..][k] == lines[k + 1];
  }

  /**
   * The texts the console prints, one per print call; LineBreak is the echo
   * read_line writes after each line it reads.
   */
  datatype Message =
    | SsidPrompt            // "SSID: "
    | SecurityPrompt        // "Security 0=unsecured, 1=WEP, 2=WPA, 3=WPA2: "
    | PasswordPrompt        // "Password: "
    | LineBreak             // "\r\n"
    | SaveNotice            // "Thanks! Wait while I save those credentials..."
    | ConnectNotice         // "Awesome. Now we'll connect!"
    | CyanLightNotice       // "If you see a pulsing cyan light, your device"
    | CloudReadyNotice      // "has connected to the Cloud and is ready to go!"
    | TroubleNotice         // "If your LED flashes red or you encounter any other problems,"
    | SupportNotice         // "visit https://www.spark.io/support to debug."
    | Farewell              // "    Spark <3 you!"

  /** The six prints that follow the connect callback. */
  const Greeting := [ConnectNotice, CyanLightNotice, CloudReadyNotice, TroubleNotice, SupportNotice, Farewell]

  /** The security prompt, n times, each answered by a line. */
  function SecurityPrompts(n: nat): (r: seq<Message>)
    ensures |r| == 2 * n
  {
    if n == 0 then [] else SecurityPrompts(n - 1) + [SecurityPrompt, LineBreak]
  }

  /** Round i of the security question prints the prompt, then the echoed line break. */
  lemma {:induction false} SecurityPromptsShape(n: nat)
    ensures forall i :: 0 <= i < n ==>
      SecurityPrompts(n)[2 * i] == SecurityPrompt && SecurityPrompts(n)[2 * i + 1] == LineBreak
  {
    if n > 0 {
      SecurityPromptsShape(n - 1);
      assert forall i :: 0 <= i < n - 1 ==>
        SecurityPrompts(n)[2 * i] == SecurityPrompts(n - 1)[2 * i] &&
        SecurityPrompts(n)[2 * i + 1] == SecurityPrompts(n - 1)[2 * i + 1];
    }
  }

  /** Everything a completed 'w' dialogue writes to the setup port. */
  function DialogueTranscript(attempts: nat, securityType: nat): seq<Message> {
    [SsidPrompt, LineBreak] + SecurityPrompts(attempts)
      + (if securityType > 0 then [PasswordPrompt, LineBreak] else [])
      + [SaveNotice] + Greeting
  }

  /** A completed dialogue's transcript, appended after earlier output, print by print. */
  lemma TranscriptParts(before: seq<Message>, attempts: nat, securityType: nat)
    ensures before + DialogueTranscript(attempts, securityType)
         == before + [SsidPrompt, LineBreak] + SecurityPrompts(attempts)
              + (if securityType > 0 then [PasswordPrompt, LineBreak] else [])
              + [SaveNotice] + Greeting
  {
    var prompts := SecurityPrompts(attempts);
    var pwLines: seq<Message> := if securityType > 0 then [PasswordPrompt, LineBreak] else [];
    var t1 := [SsidPrompt, LineBreak] + prompts;
    var t2 := t1 + pwLines;
    var t3 := t2 + [SaveNotice];
    assert before + (t3 + Greeting) == before + t3 + Greeting;
    assert before + (t2 + [SaveNotice]) == before + t2 + [SaveNotice];
    assert before + (t1 + pwLines) == before + t1 + pwLines;
    assert before + ([SsidPrompt, LineBreak] + prompts) == before + [SsidPrompt, LineBreak] + prompts;
  }

  /** What the setup console shows of the reader: input left, output, calls and the three buffers. */
  datatype Console = Console(typed: seq<seq<char>>, output: seq<Message>, calls: seq<SystemCall>,
                             ssid: seq<char>, password: seq<char>, securityType: seq<char>)

  /** The call each one-character command other than 'w' makes; none for an unknown character. */
  function CommandCall(c: char): seq<SystemCall> {
    if c == 'i' then [ShowDeviceId]
    else if c == 'm' then [ShowMacAddress]
    else if c == 'f' then [SerialFirmwareUpdate]
    else if c == 'x' then [Connect(None, None, 0)]
    else if c == 's' then [ShowModuleInfo]
    else []
  }

  /**
   * What the 'w' command leaves behind: a completed dialogue fills the SSID
   * and password buffers, makes one connect call with them, consumes the
   * lines it used and prints its transcript; an incomplete one has consumed
   * every typed line and made no call.
   */
  ghost predicate CredentialsHandled(s: Console, t: Console) {
    var d := CredentialsDialogue(s.typed);
    && (d.Some? ==>
          && t.ssid == d.value.0.ssid
          && t.password == d.value.0.password
          && t.calls == s.calls + [Connect(Some(t.ssid), Some(t.password), d.value.0.securityType)]
          && t.typed == s.typed[d.value.1..]
          && t.output == s.output + DialogueTranscript(SecurityAnswer(s.typed[1..]).value + 1,
                                                       d.value.0.securityType))
    && (d.None? ==> t.typed == [] && t.calls == s.calls)
  }

  /** handle(c) takes the console from s to t: 'w' runs the dialogue, every other character makes its call and nothing else. */
  ghost predicate Handled(c: char, s: Console, t: Console) {
    if c == 'w' then CredentialsHandled(s, t)
    else t == s.(calls := s.calls + CommandCall(c))
  }

  class CredentialsReader {
    // Serial1 magic-code matcher
    var magicPos: nat
    var serial1Enabled: bool
    /** tester != NULL: created and set up when the code completes. */
    var testerStarted: bool
    /** Every value passed to tester->loop. */
    var testerInput: seq<int>

    // setup console
    const ssid: array<char>
    const password: array<char>
    const securityTypeString: array<char>
    /** The lines the user types on the setup port, not yet read. */
    var typed: seq<seq<char>>
    /** Everything written to the setup port. */
    var output: seq<Message>
    /** Calls made into the system, oldest first. */
    var calls: seq<SystemCall>

    ghost predicate Valid()
      reads this`magicPos, this`serial1Enabled, this`testerStarted
    {
      && WellFormed(MagicCode, Listener(magicPos, serial1Enabled))
      && testerStarted == serial1Enabled
      && Buffers()
    }

    /** The three console buffers: 33, 65 and 2 characters, all distinct. */
    ghost predicate Buffers() {
      && ssid.Length == SsidMax + 1
      && password.Length == PasswordMax + 1
      && securityTypeString.Length == 2
      && ssid != password && ssid != securityTypeString && password != securityTypeString
    }

    ghost function Snapshot(): Console
      reads this, ssid, password, securityTypeString
    {
      Console(typed, output, calls, ssid[..], password[..], securityTypeString[..])
    }

    constructor (typed: seq<seq<char>>)
      ensures Valid()
      ensures magicPos == 0 && !serial1Enabled && testerInput == []
      ensures this.typed == typed && output == [] && calls == []
      ensures fresh(ssid) && fresh(password) && fresh(securityTypeString)
    {
      magicPos := 0;
      serial1Enabled := false;
      testerStarted := false;
      testerInput := [];
      ssid := new char[SsidMax + 1](_ => '\0');
      password := new char[PasswordMax + 1](_ => '\0');
      securityTypeString := new char[2](_ => '\0');
      this.typed := typed;
      output := [];
      calls := [];
    }

    /**
     * The Serial1 half of read(): c is the byte read, or -1. The byte that
     * completes or breaks a match is consumed; once enabled, every value goes
     * to the tester.
     */
    method ListenSerial1(c: int)
      requires Valid()
      modifies this`magicPos, this`serial1Enabled, this`testerStarted, this`testerInput
      ensures Valid()
      ensures Listener(magicPos, serial1Enabled) == ListenStep(MagicCode, old(Listener(magicPos, serial1Enabled)), c)
      ensures testerInput == if old(serial1Enabled) then old(testerInput) + [c] else old(testerInput)
    {
      if !serial1Enabled {
        if c >= 0 {
          var expected := MagicCode[magicPos];
          magicPos := magicPos + 1;
          if c == expected {
            serial1Enabled := magicPos == |MagicCode|;
            if serial1Enabled {
              testerStarted := true;
            }
          } else {
            magicPos := 0;
          }
        }
      } else if testerStarted {
        testerInput := testerInput + [c];
      }
    }

    /** read(): one value from Serial1 (or -1), then one from the setup port (or -1). */
    method Read(serial1Byte: int, setupByte: int)
      requires Valid() && setupByte < 256
      modifies this, ssid, password, securityTypeString
      ensures Valid()
      ensures Listener(magicPos, serial1Enabled) == ListenStep(MagicCode, old(Listener(magicPos, serial1Enabled)), serial1Byte)
      ensures testerInput == if old(serial1Enabled) then old(testerInput) + [serial1Byte] else old(testerInput)
      ensures setupByte >= 0 ==> Handled(setupByte as char, old(Snapshot()), Snapshot())
      ensures setupByte < 0 ==> Snapshot() == old(Snapshot())
    {
      ListenSerial1(serial1Byte);
      if setupByte >= 0 {
        Handle(setupByte as char);
      }
    }

    /** print: one text to the setup port. */
    method Print(m: Message)
      modifies this`output
      ensures output == old(output) + [m]
    {
      output := output + [m];
    }

    /** memset(buf, 0, buf.Length) */
    static method Clear(buf: array<char>)
      modifies buf
      ensures buf[..] == Zeros(buf.Length)
    {
      var i := 0;
      while i < buf.Length
        invariant 0 <= i <= buf.Length
        invariant forall j :: 0 <= j < i ==> buf[j] == '\0'
      {
        buf[i] := '\0';
        i := i + 1;
      }
    }

    /**
     * read_line: wait for the next typed line, copy at most maxLen of its
     * characters and a NUL into dst, echo a line break and drop the rest of
     * the line. ok is false when no line was typed: the device keeps waiting.
     */
    method ReadLine(dst: array<char>, maxLen: nat) returns (ok: bool)
      requires maxLen < dst.Length
      modifies this`typed, this`output, dst
      ensures ok <==> old(typed) != []
      ensures !ok ==> typed == old(typed) && output == old(output) && dst[..] == old(dst[..])
      ensures ok ==> typed == old(typed)[1..] && output == old(output) + [LineBreak]
      ensures ok ==> dst[..] == ReadInto(old(dst[..]), old(typed)[0], maxLen)
    {
      if typed == [] {
        return false;
      }
      var line := typed[0];
      typed := typed[1..];
      var n := Min(|line|, maxLen);
      var i := 0;
      while i < n
        invariant 0 <= i <= n
        invariant typed == old(typed)[1..] && output == old(output)
        invariant forall j :: 0 <= j < i ==> dst[j] == line[j]
        invariant forall j :: i <= j < dst.Length ==> dst[j] == old(dst[j])
      {
        dst[i] := line[i];
        i := i + 1;
      }
      dst[n] := '\0';
      Print(LineBreak);
      ok := true;
      assert dst[..] == ReadInto(old(dst[..]), line, maxLen);
    }

    /**
     * The do-while loop of the 'w' command: prompt for the security type
     * until a typed line starts with 0..3. ok is false when the typed lines
     * run out first.
     */
    method AskSecurityType() returns (ok: bool, attempts: nat)
      requires securityTypeString.Length == 2
      modifies this`typed, this`output, securityTypeString
      ensures ok <==> SecurityAnswer(old(typed)).Some?
      ensures !ok ==> typed == []
      ensures ok ==> && attempts == SecurityAnswer(old(typed)).value + 1
                     && typed == old(typed)[attempts..]
                     && securityTypeString[0] == FirstChar(old(typed)[attempts - 1])
                     && output == old(output) + SecurityPrompts(attempts)
    {
      ghost var answers := typed;
      attempts := 0;
      Print(SecurityPrompt);
      ok := ReadLine(securityTypeString, 1);
      if !ok {
        return;
      }
      attempts := 1;
      while !IsSecurityDigit(securityTypeString[0])
        invariant 1 <= attempts <= |answers|
        invariant typed == answers[attempts..]
        invariant securityTypeString[0] == FirstChar(answers[attempts - 1])
        invariant forall j :: 0 <= j < attempts - 1 ==> !IsSecurityDigit(FirstChar(answers[j]))
        invariant output == old(output) + SecurityPrompts(attempts)
        decreases |typed|
      {
        Print(SecurityPrompt);
        ok := ReadLine(securityTypeString, 1);
        if !ok {
          assert attempts == |answers|;
          return;
        }
        attempts := attempts + 1;
      }
      assert SecurityAnswer(answers).Some?;
    }

    /**
     * The 'w' command: ask for the SSID, ask for the security type until the
     * answer starts with 0..3, ask for the password unless the type is 0, and
     * hand the three to the connect callback. When the typed lines run out
     * the device is still waiting, and no callback has been made.
     */
    method HandleCredentials()
      requires Buffers()
      modifies this`typed, this`output, this`calls, ssid, password, securityTypeString
      ensures var d := CredentialsDialogue(old(typed));
        && (d.Some? ==>
              && ssid[..] == d.value.0.ssid
              && password[..] == d.value.0.password
              && calls == old(calls) + [Connect(Some(ssid[..]), Some(password[..]), d.value.0.securityType)]
              && typed == old(typed)[d.value.1..]
              && output == old(output) + DialogueTranscript(SecurityAnswer(old(typed)[1..]).value + 1,
                                                            d.value.0.securityType))
        && (d.None? ==> typed == [] && calls == old(calls))
    {
      ghost var lines := typed;
      ghost var out0 := output;
      var ok, attempts := AskSsidAndSecurityType();
      if !ok {
        DialogueIncomplete(lines);
        return;
      }
      var securityType := securityTypeString[0] as int - '0' as int;
      ok := AskPassword(securityType);
      if !ok {
        DialogueIncomplete(lines);
        return;
      }
      DialogueComplete(lines, attempts - 1, ssid[..], securityType, password[..], |lines| - |typed|);
      Finish(securityType);
      TranscriptParts(out0, attempts, securityType);
    }

    /**
     * The first steps of the 'w' command: clear the three buffers, read the
     * SSID, then ask for the security type until the answer starts with 0..3.
     */
    method AskSsidAndSecurityType() returns (ok: bool, attempts: nat)
      requires Buffers()
      modifies this`typed, this`output, ssid, password, securityTypeString
      ensures ok <==> old(typed) != [] && SecurityAnswer(old(typed)[1..]).Some?
      ensures !ok ==> typed == []
      ensures ok ==> && attempts == SecurityAnswer(old(typed)[1..]).value + 1
                     && typed == old(typed)[attempts + 1..]
                     && ssid[..] == ReadInto(Zeros(SsidMax + 1), old(typed)[0], SsidMax)
                     && password[..] == Zeros(PasswordMax + 1)
                     && securityTypeString[0] == FirstChar(old(typed)[attempts])
                     && output == old(output) + [SsidPrompt, LineBreak] + SecurityPrompts(attempts)
    {
      ghost var lines := typed;
      ClearBuffers();
      Print(SsidPrompt);
      ok := ReadLine(ssid, SsidMax);
      if !ok {
        attempts := 0;
        return;
      }
      ghost var ssidBuf := ssid[..];
      ghost var passwordBuf := password[..];
      assert ssidBuf == ReadInto(Zeros(SsidMax + 1), lines[0], SsidMax);
      assert passwordBuf == Zeros(PasswordMax + 1);
      assert typed == lines[1..];
      ok, attempts := AskSecurityType();
      assert ssid[..] == ssidBuf && password[..] == passwordBuf;
    }

    /** The three memsets at the start of the 'w' command. */
    method ClearBuffers()
      requires Buffers()
      modifies ssid, password, securityTypeString
      ensures ssid[..] == Zeros(SsidMax + 1)
      ensures password[..] == Zeros(PasswordMax + 1)
      ensures securityTypeString[..] == Zeros(2)
    {
      Clear(ssid);
      Clear(password);
      Clear(securityTypeString);
    }

    /** The password step of the 'w' command: read only when the security type is not 0. */
    method AskPassword(securityType: int) returns (ok: bool)
      requires password.Length == PasswordMax + 1
      modifies this`typed, this`output, password
      ensures ok <==> securityType <= 0 || old(typed) != []
      ensures !ok ==> typed == []
      ensures ok && securityType <= 0 ==> typed == old(typed) && output == old(output) && password[..] == old(password[..])
      ensures ok && securityType > 0 ==>
                && typed == old(typed)[1..]
                && output == old(output) + [PasswordPrompt, LineBreak]
                && password[..] == ReadInto(old(password[..]), old(typed)[0], PasswordMax)
    {
      ok := true;
      if 0 < securityType {
        Print(PasswordPrompt);
        ok := ReadLine(password, PasswordMax);
      }
    }

    /** The end of the 'w' command: the save notice, the connect callback and the greeting. */
    method Finish(securityType: nat)
      modifies this`output, this`calls
      ensures output == old(output) + [SaveNotice] + Greeting
      ensures calls == old(calls) + [Connect(Some(ssid[..]), Some(password[..]), securityType)]
    {
      Print(SaveNotice);
      calls := calls + [Connect(Some(ssid[..]), Some(password[..]), securityType)];
      Print(ConnectNotice);
      Print(CyanLightNotice);
      Print(CloudReadyNotice);
      Print(TroubleNotice);
      Print(SupportNotice);
      Print(Farewell);
    }

    /** handle(c): the one-character commands of the setup port; an unknown character does nothing. */
    method Handle(c: char)
      requires Valid()
      modifies this, ssid, password, securityTypeString
      ensures Valid() && Listener(magicPos, serial1Enabled) == old(Listener(magicPos, serial1Enabled))
      ensures testerInput == old(testerInput)
      ensures Handled(c, old(Snapshot()), Snapshot())
    {
      if c == 'w' {
        HandleCredentials();
      } else if c == 'i' {
        calls := calls + [ShowDeviceId];
      } else if c == 'm' {
        calls := calls + [ShowMacAddress];
      } else if c == 'f' {
        calls := calls + [SerialFirmwareUpdate];
      } else if c == 'x' {
        calls := calls + [Connect(None, None, 0)];
      } else if c == 's' {
        calls := calls + [ShowModuleInfo];
      }
    }
  }
}
