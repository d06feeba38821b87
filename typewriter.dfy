/**
 * The typewriter playback of the developer section: the selected code sample
 * is revealed one character per timer tick, restarting from an empty display
 * whenever another language is selected, and a copy button puts the whole
 * sample on the clipboard and shows a short-lived "copied" acknowledgement.
 *
 * Timers are not modelled as time: every firing of the repeating interval is
 * a call of Tick, every firing of the copy timeout a call of CopyTimeoutFires.
 */
module Typewriter {

  datatype Language = Python | TypeScript | Go

  /** The language selected when the section mounts. */
  const InitialLanguage: Language := TypeScript

  /** Target total reveal time and the floor of the tick interval, in milliseconds. */
  const TargetDurationMs: nat := 2000
  const MinIntervalMs: nat := 10

  /** Delay after which the "copied" acknowledgement is cleared, in milliseconds. */
  const CopiedResetMs: nat := 1500

  /** The three code samples, character for character; none is empty. */
  function Snippet(lang: Language): (code: string)
    ensures |code| > 0
  {
    match lang
    case Python =>
      "from qredin import AuthClient\n"
      + "\n"
      + "auth = AuthClient(\n"
      + "    client_id=\"YOUR_CLIENT_ID\",\n"
      + "    client_secret=\"YOUR_SECRET\"\n"
      + ")\n"
      + "\n"
      + "auth.login(redirect_uri=\"https://yourapp.com/callback\")"
    case TypeScript =>
      "import { AuthClient } from \"@qredin/sdk\";\n"
      + "\n"
      + "const auth = new AuthClient({\n"
      + "  clientId: \"YOUR_CLIENT_ID\",\n"
      + "  clientSecret: \"YOUR_SECRET\"\n"
      + "});\n"
      + "\n"
      + "await auth.login({\n"
      + "  redirectUri: window.location.origin\n"
      + "});"
    case Go =>
      "package main\n"
      + "\n"
      + "import (\n"
      + "  \"github.com/qredin/sdk\"\n"
      + ")\n"
      + "\n"
      + "func main() {\n"
      + "  auth := sdk.NewClient(\"YOUR_CLIENT_ID\", \"YOUR_SECRET\")\n"
      + "  auth.Login(\"https://yourapp.com/callback\")\n"
      + "}"
  }

  /**
   * The interval of the reveal timer for a text of `len` characters:
   * max(10, floor(2000 / len)). Whenever the floor is not in force the
   * interval is the largest whole number of milliseconds whose `len` ticks
   * fit in the target duration.
   */
  function TickInterval(len: nat): (ms: nat)
    requires len > 0
    ensures ms >= MinIntervalMs
    ensures MinIntervalMs * len <= TargetDurationMs ==> ms * len <= TargetDurationMs < (ms + 1) * len
    ensures MinIntervalMs * len > TargetDurationMs ==> ms == MinIntervalMs
  {
    var q := TargetDurationMs / len;
    assert q * len <= TargetDurationMs < (q + 1) * len;
    if MinIntervalMs * len <= TargetDurationMs then
      assert MinIntervalMs * len < (q + 1) * len;
      assert q >= MinIntervalMs;
      q
    else
      assert q * len < MinIntervalMs * len;
      assert q < MinIntervalMs;
      MinIntervalMs
  }

  /** The Python sample has 172 characters, so its tick interval is 11 ms. */
  lemma PythonInterval()
    ensures |Snippet(Python)| == 172 && TickInterval(|Snippet(Python)|) == 11
  {
  }

  /** The TypeScript sample has 198 characters, so its tick interval is 10 ms. */
  lemma TypeScriptInterval()
    ensures |Snippet(TypeScript)| == 198 && TickInterval(|Snippet(TypeScript)|) == 10
  {
  }

  /** The Go sample has 169 characters, so its tick interval is 11 ms. */
  lemma GoInterval()
    ensures |Snippet(Go)| == 169 && TickInterval(|Snippet(Go)|) == 11
  {
  }

  /** `s.substring(0, n)` for a non-negative `n`: the first n characters, clamped to the length. */
  function Substring(s: string, n: nat): (r: string)
    ensures r <= s
    ensures |r| == if n <= |s| then n else |s|
  {
    if n <= |s| then s[..n] else s
  }

  /**
   * The state of one playback: the full text, the revealed text, the
   * effect's counter `i`, and whether the reveal interval is still armed.
   */
  datatype Playback = Playback(full: string, shown: string, i: nat, live: bool)

  /** The effect run on mount and on every language change: empty display, counter 0, interval armed. */
  function Start(full: string): (p: Playback)
    ensures p.full == full && p.live && |p.shown| == 0
    ensures |full| > 0 ==> Consistent(p)
  {
    Playback(full, "", 0, true)
  }

  /**
   * The states a playback of a non-empty text can be in: the counter stays
   * below the length, and the display is the first `i` characters while the
   * interval is armed, the whole text once it has been cleared.
   */
  predicate Consistent(p: Playback)
  {
    && |p.full| > 0
    && p.i < |p.full|
    && p.shown == if p.live then p.full[..p.i] else p.full
  }

  /**
   * One firing of the interval callback. Before the last character it
   * shows one more character and advances the counter; at the last
   * character it shows the whole text and clears the interval. A cleared
   * interval does not fire, so a tick then changes nothing.
   */
  function Step(p: Playback): (q: Playback)
    ensures q.full == p.full
    ensures !p.live ==> q == p
    ensures Consistent(p) ==> Consistent(q) && q.shown <= p.full
    ensures Consistent(p) && p.live ==> |q.shown| == |p.shown| + 1 && p.shown <= q.shown
    ensures Consistent(p) && p.live ==> (q.live <==> p.i + 1 < |p.full|)
  {
    if !p.live then p
    else if p.i + 1 < |p.full| then p.(shown := Substring(p.full, p.i + 1), i := p.i + 1)
    else p.(shown := p.full, live := false)
  }

  /** The playback of `full` after `k` ticks since the last (re)start. */
  function Run(full: string, k: nat): (p: Playback)
    ensures p.full == full
    ensures |full| > 0 ==> Consistent(p) && |p.shown| <= k
  {
    if k == 0 then Start(full) else Step(Run(full, k - 1))
  }

  /**
   * The whole trace of a playback of a text of length L >= 1: after k < L
   * ticks the display is exactly the first k characters and the interval is
   * still armed; from the L-th tick on the display is the whole text, the
   * interval is cleared and the counter rests at L - 1.
   */
  lemma {:induction false} RunTrace(full: string, k: nat)
    requires |full| > 0
    ensures k < |full| ==> Run(full, k) == Playback(full, full[..k], k, true)
    ensures k >= |full| ==> Run(full, k) == Playback(full, full, |full| - 1, false)
    ensures Consistent(Run(full, k))
  {
    if k > 0 {
      RunTrace(full, k - 1);
      if k < |full| {
        assert Run(full, k) == Step(Playback(full, full[..k - 1], k - 1, true));
      }
    }
  }

  /** Playback completes after exactly L ticks: L - 1 prefix ticks, then the one that clears the interval. */
  lemma CompletesAfterLengthTicks(full: string)
    requires |full| > 0
    ensures forall k :: 0 <= k < |full| ==> Run(full, k).live
    ensures !Run(full, |full|).live && Run(full, |full|).shown == full
  {
    forall k | 0 <= k < |full| ensures Run(full, k).live {
      RunTrace(full, k);
    }
    RunTrace(full, |full|);
  }

  /** Once the interval has been cleared, further ticks leave the playback as it is. */
  lemma CompletedIsFinal(full: string, k: nat, extra: nat)
    requires |full| > 0 && k >= |full|
    ensures Run(full, k + extra) == Run(full, |full|)
  {
    RunTrace(full, k + extra);
    RunTrace(full, |full|);
  }

  /** The display only grows: what is shown after j ticks is a prefix of what is shown after any later tick. */
  lemma ShownGrows(full: string, j: nat, k: nat)
    requires |full| > 0 && j <= k
    ensures Run(full, j).shown <= Run(full, k).shown <= full
  {
    RunTrace(full, j);
    RunTrace(full, k);
  }

  /**
   * The developer section: the table of code samples it shows, the selected
   * language, the revealed text, the counter of the running effect, the
   * reveal interval (whether it is armed and its period), and the copy
   * acknowledgement with the number of reset timeouts still pending and
   * the delay the last one was scheduled with.
   * The page builds it over the table Snippet (see Mount).
   */
  class DeveloperSection {
    const codeSnippets: Language -> string
    var activeTab: Language
    var displayedCode: string
    var i: nat
    var intervalLive: bool
    var intervalMs: nat
    var copied: bool
    var pendingCopyResets: nat
    var copyResetDelayMs: nat
    var mounted: bool

    function FullCode(): string
      reads this
    {
      codeSnippets(activeTab)
    }

    function State(): Playback
      reads this
    {
      Playback(FullCode(), displayedCode, i, intervalLive)
    }

    ghost predicate Valid()
      reads this
    {
      && (forall lang :: |codeSnippets(lang)| > 0)
      && i < |FullCode()|
      && displayedCode <= FullCode()
      && intervalMs == TickInterval(|FullCode()|)
      && (mounted ==> Consistent(State()))
      && (!mounted ==> !intervalLive)
    }

    /** Mounting: TypeScript selected, nothing copied, and the mount effect has armed the reveal. */
    constructor (codeSnippets: Language -> string)
      requires forall lang :: |codeSnippets(lang)| > 0
      ensures Valid() && mounted && this.codeSnippets == codeSnippets
      ensures activeTab == InitialLanguage && displayedCode == ""
      ensures State() == Start(codeSnippets(InitialLanguage))
      ensures intervalMs == TickInterval(|codeSnippets(InitialLanguage)|)
      ensures !copied && pendingCopyResets == 0
    {
      this.codeSnippets := codeSnippets;
      activeTab := InitialLanguage;
      displayedCode := "";
      copied := false;
      pendingCopyResets := 0;
      copyResetDelayMs := CopiedResetMs;
      i := 0;
      intervalMs := TickInterval(|codeSnippets(InitialLanguage)|);
      intervalLive := true;
      mounted := true;
    }

    /** One firing of the reveal interval. */
    method Tick()
      requires Valid()
      modifies this`displayedCode, this`i, this`intervalLive
      ensures Valid()
      ensures State() == Step(old(State()))
    {
      if intervalLive {
        if i + 1 < |FullCode()| {
          displayedCode := Substring(FullCode(), i + 1);
          i := i + 1;
        } else {
          displayedCode := FullCode();
          intervalLive := false;
        }
      }
    }

    /**
     * A click on a language tab. Selecting the language already shown
     * changes no state, so the effect does not run again; any other choice
     * cancels the old interval, empties the display, resets the counter and
     * arms a new interval at the new sample's period.
     */
    method SelectLanguage(lang: Language)
      requires Valid() && mounted
      modifies this`activeTab, this`displayedCode, this`i, this`intervalLive, this`intervalMs
      ensures Valid() && activeTab == lang
      ensures lang == old(activeTab) ==> State() == old(State()) && intervalMs == old(intervalMs)
      ensures lang != old(activeTab) ==> State() == Start(codeSnippets(lang))
      ensures intervalMs == TickInterval(|codeSnippets(lang)|)
    {
      if lang != activeTab {
        activeTab := lang;
        intervalLive := false;
        displayedCode := "";
        i := 0;
        intervalMs := TickInterval(|FullCode()|);
        intervalLive := true;
      }
    }

    /**
     * The copy button: the text handed to the clipboard is the whole sample,
     * however much of it is shown; the acknowledgement is raised and one
     * more reset timeout is scheduled, 1500 ms out. Playback is left as it is.
     */
    method HandleCopy() returns (written: string)
      requires Valid()
      modifies this`copied, this`pendingCopyResets, this`copyResetDelayMs
      ensures Valid()
      ensures written == codeSnippets(activeTab) && displayedCode <= written
      ensures copied && pendingCopyResets == old(pendingCopyResets) + 1
      ensures copyResetDelayMs == CopiedResetMs
      ensures State() == old(State())
    {
      written := FullCode();
      copied := true;
      pendingCopyResets := pendingCopyResets + 1;
      copyResetDelayMs := CopiedResetMs;
    }

    /** One scheduled reset timeout fires and lowers the acknowledgement. */
    method CopyTimeoutFires()
      requires Valid() && pendingCopyResets > 0
      modifies this`copied, this`pendingCopyResets
      ensures Valid()
      ensures !copied && pendingCopyResets == old(pendingCopyResets) - 1
      ensures State() == old(State())
    {
      copied := false;
      pendingCopyResets := pendingCopyResets - 1;
    }

    /** Unmounting runs the effect's cleanup: the reveal interval is cleared. */
    method Unmount()
      requires Valid()
      modifies this`mounted, this`intervalLive
      ensures Valid() && !mounted && !intervalLive
      ensures displayedCode == old(displayedCode) && pendingCopyResets == old(pendingCopyResets)
    {
      intervalLive := false;
      mounted := false;
    }
  }

  /** The section as the page mounts it: over the three samples, showing TypeScript with a 10 ms reveal. */
  method Mount() returns (section: DeveloperSection)
    ensures fresh(section) && section.Valid() && section.mounted
    ensures section.codeSnippets == Snippet && section.activeTab == TypeScript
    ensures section.State() == Start(Snippet(TypeScript)) && section.intervalMs == 10
    ensures !section.copied
  {
    TypeScriptInterval();
    section := new DeveloperSection(Snippet);
  }
}
