/** The `/on` and `/off` commands of the webhook handler (api/tg-webhook.js):
    how the message text decides whether the beacon is on and when it expires. */
module Commands {
  import opened Strings
  import opened Duration

  /** `/^\/word\b/i` for a lower-case `word` that ends in a word character: the text
      starts with `/` and `word` in any ASCII case, and the next character (if any)
      is not a word character. */
  predicate StartsWithCommand(text: string, word: string)
  {
    |text| > |word| && text[0] == '/' &&
    EqualsIgnoringCase(text[1..|word| + 1], word) &&
    (|text| == |word| + 1 || !IsWordChar(text[|word| + 1]))
  }

  /** `/^\/off\b/i`, character by character. */
  predicate IsOffCommand(text: string): (b: bool)
    ensures b <==> (|text| >= 4 && text[0] == '/' && ToLowerAscii(text[1]) == 'o' &&
                    ToLowerAscii(text[2]) == 'f' && ToLowerAscii(text[3]) == 'f' &&
                    (|text| == 4 || !IsWordChar(text[4])))
  {
    StartsWithCommand(text, "off")
  }

  /** `/^\/on\b/i`, character by character. */
  predicate IsOnCommand(text: string): (b: bool)
    ensures b <==> (|text| >= 3 && text[0] == '/' && ToLowerAscii(text[1]) == 'o' &&
                    ToLowerAscii(text[2]) == 'n' && (|text| == 3 || !IsWordChar(text[3])))
  {
    StartsWithCommand(text, "on")
  }

  /** `text.replace(/^\/on/i, '').trim()`: what follows the `/on` token, trimmed. */
  function OnArgument(text: string): (arg: string)
    requires IsOnCommand(text)
    ensures IsTrimmed(arg) && |arg| <= |text| - 3
  {
    Trim(text[3..])
  }

  /** The argument is the text after the `/on` token with only whitespace removed from
      either side of it. */
  lemma OnArgumentIsRest(text: string)
    requires IsOnCommand(text)
    ensures var rest, a := text[3..], OnArgument(text);
      exists i | 0 <= i <= |rest| - |a| ::
        rest[i..i + |a|] == a && AllWhitespace(rest[..i]) && AllWhitespace(rest[i + |a|..])
  {
    var rest := text[3..];
    assert OnArgument(text) == Trim(rest);
    TrimIsInfix(rest);
  }

  /** `durationMs` after the handler's command branch: zero for `/off`, the parsed
      argument of `/on` (the default when it is not a duration), and the default
      for every other text, which re-arms the beacon as an implicit `/on`. */
  function DurationMs(text: string, defaultMs: nat): (ms: nat)
    requires defaultMs >= 1000
    ensures ms == 0 <==> IsOffCommand(text)
    ensures ms != 0 ==> ms >= 1000
  {
    if IsOffCommand(text) then 0
    else if IsOnCommand(text) then ParseDuration(OnArgument(text), defaultMs)
    else defaultMs
  }

  /** The handler's branch on the command: `durationMs` starts at the default and is
      reassigned for `/off` and for `/on`. */
  method CommandDuration(text: string, defaultMs: nat) returns (durationMs: nat)
    requires defaultMs >= 1000
    ensures durationMs == DurationMs(text, defaultMs)
    ensures durationMs == 0 <==> IsOffCommand(text)
  {
    durationMs := defaultMs;
    if IsOffCommand(text) {
      durationMs := 0;
    } else if IsOnCommand(text) {
      durationMs := ParseDuration(OnArgument(text), defaultMs);
    }
  }

  /** The beacon state a message asks for: on or off, and the expiry in milliseconds
      since the epoch. */
  datatype Decision = Decision(on: bool, expiresAt: int)

  /** `on: durationMs > 0` and `expiresAt = now + durationMs`: a beacon that is on
      expires at least a second from now, one that is off has already expired. */
  function Interpret(text: string, now: int, defaultMs: nat): (d: Decision)
    requires defaultMs >= 1000
    ensures d.on <==> !IsOffCommand(text)
    ensures d.on ==> d.expiresAt >= now + 1000
    ensures !d.on ==> d.expiresAt == now
  {
    var ms := DurationMs(text, defaultMs);
    Decision(ms > 0, now + ms)
  }

  /** No text is both an `/off` and an `/on` command. */
  lemma CommandsExclusive(text: string)
    ensures !(IsOffCommand(text) && IsOnCommand(text))
  {
  }

  /** `/on` sets the expiry to now plus the parsed argument, or the default. */
  lemma InterpretOn(text: string, now: int, defaultMs: nat)
    requires defaultMs >= 1000 && IsOnCommand(text)
    ensures Interpret(text, now, defaultMs) == Decision(true, now + ParseDuration(OnArgument(text), defaultMs))
  {
    CommandsExclusive(text);
    assert DurationMs(text, defaultMs) == ParseDuration(OnArgument(text), defaultMs);
  }

  /** Text that is no command is an implicit `/on` for the default duration. */
  lemma InterpretImplicitOn(text: string, now: int, defaultMs: nat)
    requires defaultMs >= 1000 && !IsOffCommand(text) && !IsOnCommand(text)
    ensures Interpret(text, now, defaultMs) == Decision(true, now + defaultMs)
  {
  }

  /** `/off` switches the beacon off and expires it now. */
  lemma InterpretOffExample(now: int, defaultMs: nat)
    requires defaultMs >= 1000
    ensures Interpret("/off", now, defaultMs) == Decision(false, now)
    ensures Interpret("/OFF please", now, defaultMs) == Decision(false, now)
  {
    assert "/off"[1..4] == "off";
    var shouted := "/OFF please";
    assert shouted[1..4] == "OFF" && shouted[4] == ' ';
    assert IsOffCommand(shouted);
  }

  /** The argument of `/on 2m` is `2m`. */
  lemma OnArgumentExample()
    ensures IsOnCommand("/on 2m") && OnArgument("/on 2m") == "2m"
  {
    var text := "/on 2m";
    assert IsOnCommand(text) by { assert text[1..3] == "on"; }
    assert OnArgument(text) == "2m" by {
      assert text[3..] == [' '] + "2m";
      TrimDropsLeadingWhitespace(' ', "2m");
    }
  }

  /** `/on 2m` keeps the beacon on for two minutes. */
  lemma InterpretOnExample(now: int, defaultMs: nat)
    requires defaultMs >= 1000
    ensures Interpret("/on 2m", now, defaultMs) == Decision(true, now + 120_000)
  {
    OnArgumentExample();
    ParseDurationMinutes(defaultMs);
    InterpretOn("/on 2m", now, defaultMs);
  }

  /** Ordinary chat text, and a word that merely begins with `/on`, re-arm the
      beacon for the default duration. */
  lemma InterpretPlainTextExample(now: int)
    ensures Interpret("hello", now, 30_000) == Decision(true, now + 30_000)
    ensures Interpret("/online", now, 30_000) == Decision(true, now + 30_000)
  {
    assert "/online"[1..3] == "on";
    assert "/online"[1..4] == "onl";
    assert IsWordChar("/online"[3]);
  }
}
