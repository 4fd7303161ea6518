/**
 * static/script.js: the browser side of the game. The model covers the two
 * selection slots of the page, the poll that re-renders the cards only on a
 * change, the session-id rule for request and redirect URLs, the countdown of
 * the restart button and the restart-vote notice. The DOM, the timers
 * themselves and the network are not modelled: what they deliver (the poll's
 * JSON, the URL parameter, the stored session id) is passed in.
 */
module Client {

  import opened Util

  const PLAYER_CONTAINER: string := "player-circle-container"

  // ---------------------------------------------------------------------------
  // Selection of one emoji per container
  // ---------------------------------------------------------------------------

  /** The two selection slots: selectedPlayerEmoji and selectedCenterEmoji. */
  datatype Selection = Selection(player: Option<string>, center: Option<string>)

  /** At most one of the two containers has a selected emoji. */
  predicate AtMostOne(s: Selection) {
    s.player == None || s.center == None
  }

  /** The slot of the container clicked in: the player's card or any other container (the centre). */
  function Slot(s: Selection, containerId: string): Option<string> {
    if containerId == PLAYER_CONTAINER then s.player else s.center
  }

  /** The slot of the container not clicked in. */
  function OtherSlot(s: Selection, containerId: string): Option<string> {
    if containerId == PLAYER_CONTAINER then s.center else s.player
  }

  /**
   * highlightEmoji on the two slots: clicking the emoji already selected in a
   * container deselects it and leaves the other container alone; clicking any
   * other emoji selects it and clears the other container.
   */
  function Highlighted(s: Selection, containerId: string, emoji: string): (r: Selection)
    ensures Slot(r, containerId) == if Slot(s, containerId) == Some(emoji) then None else Some(emoji)
    ensures OtherSlot(r, containerId) == if Slot(s, containerId) == Some(emoji) then OtherSlot(s, containerId) else None
    ensures Slot(s, containerId) != Some(emoji) ==> AtMostOne(r)
    ensures AtMostOne(s) ==> AtMostOne(r)
  {
    if containerId == PLAYER_CONTAINER then
      if s.player == Some(emoji) then s.(player := None) else Selection(Some(emoji), None)
    else
      if s.center == Some(emoji) then s.(center := None) else Selection(None, Some(emoji))
  }

  /** Clicking a newly chosen emoji twice leaves nothing selected; clicking the selected one twice reselects it alone. */
  lemma {:induction false} HighlightTwice(s: Selection, containerId: string, emoji: string)
    ensures Slot(s, containerId) != Some(emoji) ==>
      Highlighted(Highlighted(s, containerId, emoji), containerId, emoji) == Selection(None, None)
    ensures Slot(s, containerId) == Some(emoji) ==>
      var r := Highlighted(Highlighted(s, containerId, emoji), containerId, emoji);
      Slot(r, containerId) == Some(emoji) && OtherSlot(r, containerId) == None
  {
    var r1 := Highlighted(s, containerId, emoji);
    var r2 := Highlighted(r1, containerId, emoji);
    if Slot(s, containerId) != Some(emoji) {
      assert Slot(r1, containerId) == Some(emoji) && OtherSlot(r1, containerId) == None;
      assert Slot(r2, containerId) == None && OtherSlot(r2, containerId) == None;
    }
  }

  /** The page's module-level state: the selection slots and the JSON of the cards last drawn. */
  class Page {
    var selectedPlayerEmoji: Option<string>
    var selectedCenterEmoji: Option<string>
    var lastPlayerData: Option<string>
    var lastCenterData: Option<string>

    /** Every variable starts as null. */
    constructor()
      ensures selectedPlayerEmoji == None && selectedCenterEmoji == None
      ensures lastPlayerData == None && lastCenterData == None
    {
      selectedPlayerEmoji := None;
      selectedCenterEmoji := None;
      lastPlayerData := None;
      lastCenterData := None;
    }

    function Selected(): Selection
      reads this
    {
      Selection(selectedPlayerEmoji, selectedCenterEmoji)
    }

    /** highlightEmoji: the slots become Highlighted(old slots); the poll's record is not touched. */
    method HighlightEmoji(containerId: string, emoji: string)
      modifies this
      ensures Selected() == Highlighted(old(Selected()), containerId, emoji)
      ensures lastPlayerData == old(lastPlayerData) && lastCenterData == old(lastCenterData)
    {
      if containerId == PLAYER_CONTAINER {
        if selectedPlayerEmoji == Some(emoji) {
          selectedPlayerEmoji := None;
          return;
        }
        selectedPlayerEmoji := Some(emoji);
        selectedCenterEmoji := None;
      } else {
        if selectedCenterEmoji == Some(emoji) {
          selectedCenterEmoji := None;
          return;
        }
        selectedCenterEmoji := Some(emoji);
        selectedPlayerEmoji := None;
      }
    }

    /**
     * One poll of /game_state with the JSON of the player's and the centre's
     * card: the cards are redrawn and both selections cleared exactly when
     * either JSON differs from the one last drawn; afterwards both are recorded,
     * so polling the same cards again redraws nothing.
     */
    method Poll(playerJson: string, centerJson: string) returns (rerender: bool)
      modifies this
      ensures rerender <==> old(lastPlayerData) != Some(playerJson) || old(lastCenterData) != Some(centerJson)
      ensures rerender ==> Selected() == Selection(None, None)
      ensures !rerender ==> Selected() == old(Selected())
      ensures lastPlayerData == Some(playerJson) && lastCenterData == Some(centerJson)
    {
      rerender := false;
      if lastPlayerData != Some(playerJson) || lastCenterData != Some(centerJson) {
        selectedPlayerEmoji := None;
        selectedCenterEmoji := None;
        rerender := true;
        lastPlayerData := Some(playerJson);
        lastCenterData := Some(centerJson);
      }
    }
  }

  // ---------------------------------------------------------------------------
  // Session id in requests and redirects
  // ---------------------------------------------------------------------------

  /** JavaScript truthiness of a string that may be null: present and not empty. */
  predicate Truthy(o: Option<string>) {
    o.Some? && |o.value| > 0
  }

  /** `urlParams.get('session_id') || sessionStorage.getItem(...)`: the URL's id when it has one. */
  function SessionId(urlParam: Option<string>, stored: Option<string>): (r: Option<string>)
    ensures Truthy(urlParam) ==> r == urlParam
    ensures !Truthy(urlParam) ==> r == stored
    ensures Truthy(r) <==> Truthy(urlParam) || Truthy(stored)
  {
    if Truthy(urlParam) then urlParam else stored
  }

  /**
   * The URL fetchWithSession requests: with a session id and no "session_id="
   * in the URL, "session_id=" and the id are appended after '&' when the URL
   * already has a query and after '?' otherwise; any other URL is kept.
   */
  function WithSession(url: string, sessionId: Option<string>): (r: string)
    ensures !Truthy(sessionId) || Contains(url, "session_id=") ==> r == url
    ensures Truthy(sessionId) && !Contains(url, "session_id=") ==>
      r == url + (if Contains(url, "?") then "&" else "?") + "session_id=" + sessionId.value
    ensures Truthy(sessionId) ==> Contains(r, "session_id=")
  {
    if Truthy(sessionId) && !Contains(url, "session_id=") then
      var sep := if Contains(url, "?") then "&" else "?";
      ContainsSuffix(url + sep, "session_id=");
      ContainsPrefix(url + sep + "session_id=", "session_id=", sessionId.value);
      url + sep + "session_id=" + sessionId.value
    else url
  }

  /** Adding the session id twice is adding it once. */
  lemma WithSessionIdempotent(url: string, sessionId: Option<string>)
    ensures WithSession(WithSession(url, sessionId), sessionId) == WithSession(url, sessionId)
  {
  }

  /**
   * The options a caller hands to fetchWithSession: the method and body are passed
   * on untouched, and the headers (none when the caller gives none) are extended.
   */
  datatype FetchOptions = FetchOptions(httpMethod: Option<string>, headers: map<string, string>, body: Option<string>)

  /** `fetchWithSession(url)`, a call without options. */
  const NO_OPTIONS: FetchOptions := FetchOptions(None, map[], None)

  /** The request fetchWithSession sends: URL, method, headers, body, and credentials always included. */
  datatype Request = Request(url: string, httpMethod: Option<string>, headers: map<string, string>,
                             body: Option<string>, credentials: string)

  /**
   * fetchWithSession: the caller's headers with X-Session-Id set when a session id
   * is found and X-Username set when a user name is stored; a caller's own value
   * of either header stays when there is nothing to put in its place.
   */
  function FetchWithSession(url: string, options: FetchOptions, urlParam: Option<string>, stored: Option<string>,
                            username: Option<string>): (r: Request)
    ensures var sid := SessionId(urlParam, stored);
      r.url == WithSession(url, sid) &&
      r.httpMethod == options.httpMethod && r.body == options.body && r.credentials == "include" &&
      (forall k :: k in r.headers <==>
         k in options.headers || (k == "X-Session-Id" && Truthy(sid)) || (k == "X-Username" && Truthy(username))) &&
      (forall k :: k in options.headers && k != "X-Session-Id" && k != "X-Username" ==>
         r.headers[k] == options.headers[k]) &&
      (Truthy(sid) ==> r.headers["X-Session-Id"] == sid.value) &&
      (!Truthy(sid) && "X-Session-Id" in options.headers ==>
         r.headers["X-Session-Id"] == options.headers["X-Session-Id"]) &&
      (Truthy(username) ==> r.headers["X-Username"] == username.value) &&
      (!Truthy(username) && "X-Username" in options.headers ==>
         r.headers["X-Username"] == options.headers["X-Username"])
  {
    var sid := SessionId(urlParam, stored);
    var h0 := options.headers;
    var h1 := if Truthy(sid) then h0["X-Session-Id" := sid.value] else h0;
    var h2 := if Truthy(username) then h1["X-Username" := username.value] else h1;
    Request(WithSession(url, sid), options.httpMethod, h2, options.body, "include")
  }

  /** Without options, the only headers sent are the two fetchWithSession adds. */
  lemma FetchWithoutOptions(url: string, urlParam: Option<string>, stored: Option<string>, username: Option<string>)
    ensures var r := FetchWithSession(url, NO_OPTIONS, urlParam, stored, username);
      r.headers.Keys <= {"X-Session-Id", "X-Username"} &&
      ("X-Session-Id" in r.headers <==> Truthy(SessionId(urlParam, stored))) &&
      ("X-Username" in r.headers <==> Truthy(username)) &&
      r.httpMethod == None && r.body == None
  {
  }

  /** The login handler's redirect: `data.redirect` with `data.session_id` appended by the same rule. */
  function RedirectUrl(redirect: string, sessionId: Option<string>): (r: string)
    ensures Truthy(sessionId) ==> Contains(r, "session_id=")
    ensures !Truthy(sessionId) ==> r == redirect
  {
    if !Contains(redirect, "session_id=") && Truthy(sessionId) then
      WithSession(redirect, sessionId)
    else redirect
  }

  /** The redirect after login carries the session id exactly as every later request does. */
  lemma RedirectMatchesFetch(redirect: string, sessionId: Option<string>)
    ensures RedirectUrl(redirect, sessionId) == WithSession(redirect, sessionId)
  {
  }

  // ---------------------------------------------------------------------------
  // Decimal numbers in button labels
  // ---------------------------------------------------------------------------

  predicate IsDigit(c: char) {
    '0' <= c <= '9'
  }

  /** The character of a decimal digit. */
  function DigitChar(d: int): (c: char)
    requires 0 <= d <= 9
    ensures IsDigit(c) && DigitValue(c) == d
  {
    (('0' as int) + d) as char
  }

  /** The value of a digit character, as parseInt reads it. */
  function DigitValue(c: char): (d: int)
    requires IsDigit(c)
    ensures 0 <= d <= 9
  {
    (c as int) - ('0' as int)
  }

  /** A number as a template literal writes it: decimal digits, no leading zero. */
  function Decimal(n: nat): (s: string)
    ensures |s| > 0 && forall t :: 0 <= t < |s| ==> IsDigit(s[t])
  {
    if n < 10 then [DigitChar(n)] else Decimal(n / 10) + [DigitChar(n % 10)]
  }

  /** parseInt of a string of digits. */
  function ParseDigits(s: string): nat
    requires forall t :: 0 <= t < |s| ==> IsDigit(s[t])
  {
    if |s| == 0 then 0 else ParseDigits(s[..|s| - 1]) * 10 + DigitValue(s[|s| - 1])
  }

  /** Reading back a written number gives the number. */
  lemma {:induction false} ParseDecimal(n: nat)
    ensures ParseDigits(Decimal(n)) == n
  {
    var s := Decimal(n);
    if n >= 10 {
      assert s[..|s| - 1] == Decimal(n / 10);
      ParseDecimal(n / 10);
    }
  }

  /** The length of the run of digits s starts with. */
  function DigitRun(s: string): (k: nat)
    ensures k <= |s| && forall t :: 0 <= t < k ==> IsDigit(s[t])
    ensures k < |s| ==> !IsDigit(s[k])
  {
    if |s| > 0 && IsDigit(s[0]) then 1 + DigitRun(s[1..]) else 0
  }

  /** A string of digits followed by a non-digit: the run is the digits. */
  lemma {:induction false} DigitRunOf(ds: string, rest: string)
    requires forall t :: 0 <= t < |ds| ==> IsDigit(ds[t])
    requires |rest| > 0 && !IsDigit(rest[0])
    ensures DigitRun(ds + rest) == |ds|
  {
    if |ds| > 0 {
      assert (ds + rest)[1..] == ds[1..] + rest;
      DigitRunOf(ds[1..], rest);
    }
  }

  /** s starts with '(', k digits, 's' and ')': the text /\((\d+)s\)/ matches at s[0]. */
  predicate CountAt(s: string, k: int) {
    1 <= k && k + 3 <= |s| && s[0] == '(' && (forall t :: 1 <= t <= k ==> IsDigit(s[t])) &&
    s[k + 1] == 's' && s[k + 2] == ')'
  }

  /** A count at the start of s has exactly the digit run after the '('. */
  lemma CountRun(s: string)
    requires |s| > 0
    ensures forall k :: CountAt(s, k) ==> k == DigitRun(s[1..])
    ensures var d := DigitRun(s[1..]);
      CountAt(s, d) <==> s[0] == '(' && d > 0 && d + 3 <= |s| && s[1 + d] == 's' && s[2 + d] == ')'
  {
    var d := DigitRun(s[1..]);
    forall k | CountAt(s, k)
      ensures k == d
    {
      assert !IsDigit(s[1..][k]);
      assert forall t :: 0 <= t < k ==> IsDigit(s[1..][t]);
    }
    assert forall t :: 1 <= t <= d && t < |s| ==> s[t] == s[1..][t - 1];
  }

  /** The match of /\((\d+)s\)/ starting at the first character of s: the number read, if any. */
  function MatchHere(s: string): (r: Option<nat>)
    ensures r.Some? <==> exists k :: CountAt(s, k)
    ensures forall k :: CountAt(s, k) ==> r == Some(ParseDigits(s[1..1 + k]))
  {
    if |s| > 0 && s[0] == '(' then
      CountRun(s);
      var k := DigitRun(s[1..]);
      if k > 0 && 1 + k + 2 <= |s| && s[1 + k] == 's' && s[2 + k] == ')' then Some(ParseDigits(s[1..1 + k]))
      else None
    else None
  }

  /**
   * `text.match(/\((\d+)s\)/)` followed by parseInt of the group: the leftmost
   * match. A shorter run of digits is never a match, since a digit, not 's',
   * would follow it.
   */
  function FindSeconds(s: string): (r: Option<nat>)
    ensures r.Some? ==> exists i :: 0 <= i < |s| && MatchHere(s[i..]) == r
    decreases |s|
  {
    if |s| == 0 then None
    else if MatchHere(s).Some? then
      assert s[0..] == s;
      MatchHere(s)
    else
      assert forall i :: 0 <= i < |s| - 1 ==> s[1..][i..] == s[i + 1..];
      FindSeconds(s[1..])
  }

  /** No match of the pattern starts before position n of s. */
  predicate NoMatchBefore(s: string, n: int)
    requires 0 <= n <= |s|
  {
    forall j :: 0 <= j < n ==> MatchHere(s[j..]).None?
  }

  /** A match starts at position i of s and at no earlier position. */
  predicate LeftmostMatchAt(s: string, i: int)
    requires 0 <= i < |s|
  {
    MatchHere(s[i..]).Some? && NoMatchBefore(s, i)
  }

  /** When no match starts at s[0], the positions of s after the first are those of s[1..]. */
  lemma NoMatchShift(s: string, n: int)
    requires |s| > 0 && MatchHere(s).None? && 1 <= n <= |s|
    ensures NoMatchBefore(s, n) <==> NoMatchBefore(s[1..], n - 1)
  {
    assert s[0..] == s;
    forall j | 1 <= j < |s|
      ensures s[j..] == s[1..][j - 1..]
    {
    }
  }

  /** The search finds the match that starts leftmost, and nothing when no position starts one. */
  lemma {:induction false} FindSecondsLeftmost(s: string)
    ensures FindSeconds(s).None? <==> NoMatchBefore(s, |s|)
    ensures FindSeconds(s).Some? ==>
      exists i :: 0 <= i < |s| && LeftmostMatchAt(s, i) && FindSeconds(s) == MatchHere(s[i..])
    decreases |s|
  {
    if |s| > 0 {
      assert s[0..] == s;
      if MatchHere(s).None? {
        var t := s[1..];
        FindSecondsLeftmost(t);
        NoMatchShift(s, |s|);
        if FindSeconds(s).Some? {
          var i :| 0 <= i < |t| && LeftmostMatchAt(t, i) && FindSeconds(t) == MatchHere(t[i..]);
          NoMatchShift(s, i + 1);
          assert s[i + 1..] == t[i..];
          assert LeftmostMatchAt(s, i + 1);
        }
      } else {
        assert LeftmostMatchAt(s, 0);
      }
    }
  }

  /** Text without a '(' cannot start a match, so the search skips it. */
  lemma {:induction false} FindSecondsSkip(p: string, s: string)
    requires forall t :: 0 <= t < |p| ==> p[t] != '('
    ensures FindSeconds(p + s) == FindSeconds(s)
  {
    if |p| > 0 {
      assert (p + s)[0] == p[0];
      assert MatchHere(p + s) == None;
      assert (p + s)[1..] == p[1..] + s;
      FindSecondsSkip(p[1..], s);
    } else {
      assert p + s == s;
    }
  }

  // ---------------------------------------------------------------------------
  // The restart button's countdown
  // ---------------------------------------------------------------------------

  const IDLE_LABEL: string := "Start New Game"

  /** The label of a button cooling down for n more seconds: IDLE_LABEL, a space and "(Ns)". */
  function CooldownLabel(n: nat): string {
    IDLE_LABEL + " " + Count(n)
  }

  /** "(Ns)" */
  function Count(n: nat): string {
    "(" + Decimal(n) + "s)"
  }

  /** The seconds read back from a countdown label are the seconds written into it. */
  lemma ReadCooldownLabel(n: nat)
    ensures FindSeconds(CooldownLabel(n)) == Some(n)
  {
    NoParenInPrefix();
    FindSecondsSkip(IDLE_LABEL + " ", Count(n));
    ReadCount(n);
  }

  /** The label before the count has no '('. */
  lemma NoParenInPrefix()
    ensures forall t :: 0 <= t < |IDLE_LABEL + " "| ==> (IDLE_LABEL + " ")[t] != '('
  {
  }

  /** "(Ns)" is a match of the count pattern at its start, and its number is n. */
  lemma ReadCount(n: nat)
    ensures FindSeconds(Count(n)) == Some(n)
  {
    var ds := Decimal(n);
    var c := Count(n);
    assert c[0] == '(';
    assert c[1..] == ds + "s)";
    DigitRunOf(ds, "s)");
    assert c[1..1 + |ds|] == ds;
    ParseDecimal(n);
    assert MatchHere(c) == Some(n);
  }

  /** The idle label holds no countdown. */
  lemma IdleLabelHasNoSeconds()
    ensures FindSeconds(IDLE_LABEL) == None
  {
    FindSecondsSkip(IDLE_LABEL, "");
    assert IDLE_LABEL + "" == IDLE_LABEL;
  }

  /** The restart button and whether window.restartCooldownTimer is set. */
  datatype Button = Button(disabled: bool, text: string, timer: bool)

  /**
   * One second of the countdown: a label "(Ns)" with N > 1 counts down to
   * N - 1; with N <= 1 the button is enabled, relabelled and the timer
   * cleared; a label without a count is left alone.
   */
  function Tick(b: Button): Button {
    match FindSeconds(b.text)
    case None => b
    case Some(n) =>
      if n > 1 then b.(text := CooldownLabel(n - 1))
      else Button(false, IDLE_LABEL, false)
  }

  /** A tick never disables the button or starts a timer, and a label without a count is left alone. */
  lemma TickMonotone(b: Button)
    ensures Tick(b).disabled ==> b.disabled
    ensures Tick(b).timer ==> b.timer
    ensures FindSeconds(b.text).None? ==> Tick(b) == b
  {
  }

  /** The timer fired k times. */
  function Ticks(b: Button, k: nat): Button
    decreases k
  {
    if k == 0 then b else Ticks(Tick(b), k - 1)
  }

  /** One tick on a countdown label of more than one second counts down by one. */
  lemma TickCountsDown(n: nat, timer: bool)
    requires n > 1
    ensures Tick(Button(true, CooldownLabel(n), timer)) == Button(true, CooldownLabel(n - 1), timer)
  {
    ReadCooldownLabel(n);
  }

  /** The tick on "(1s)" (or "(0s)") enables the button, restores its label and clears the timer. */
  lemma FinalTick(n: nat, timer: bool)
    requires n <= 1
    ensures Tick(Button(true, CooldownLabel(n), timer)) == Button(false, IDLE_LABEL, false)
  {
    ReadCooldownLabel(n);
  }

  /** A cooldown of n >= 1 seconds has the button enabled, idle and the timer cleared after n ticks, and stays so. */
  lemma {:induction false} CountdownEnds(n: nat, k: nat, timer: bool)
    requires 1 <= n <= k
    ensures Ticks(Button(true, CooldownLabel(n), timer), k) == Button(false, IDLE_LABEL, false)
  {
    var b := Button(true, CooldownLabel(n), timer);
    if n > 1 {
      TickCountsDown(n, timer);
      TicksAfter(b, Button(true, CooldownLabel(n - 1), timer), k);
      CountdownEnds(n - 1, k - 1, timer);
    } else {
      FinalTick(n, timer);
      IdleTick();
      LastTick(b, Button(false, IDLE_LABEL, false), k);
    }
  }

  /** A tick into a button the timer leaves alone: every later tick also leaves it alone. */
  lemma {:induction false} LastTick(b: Button, c: Button, k: nat)
    requires k >= 1 && Tick(b) == c && Tick(c) == c
    ensures Ticks(b, k) == c
  {
    TicksAfter(b, c, k);
    FixedStays(c, k - 1);
  }

  /** k ticks are one tick and then k - 1 more. */
  lemma {:induction false} TicksAfter(b: Button, c: Button, k: nat)
    requires k > 0 && Tick(b) == c
    ensures Ticks(b, k) == Ticks(c, k - 1)
  {
  }

  /** A button the timer leaves alone stays as it is however often the timer fires. */
  lemma {:induction false} FixedStays(b: Button, k: nat)
    requires Tick(b) == b
    ensures Ticks(b, k) == b
  {
    if k > 0 {
      FixedStays(b, k - 1);
    }
  }

  /** The idle, enabled button is left alone by the timer. */
  lemma IdleTick()
    ensures Tick(Button(false, IDLE_LABEL, false)) == Button(false, IDLE_LABEL, false)
  {
    IdleLabelHasNoSeconds();
  }

  /** Before n ticks have passed, the button is still disabled and shows the seconds left. */
  lemma {:induction false} CountdownShowsRemaining(n: nat, k: nat, timer: bool)
    requires k < n
    ensures Ticks(Button(true, CooldownLabel(n), timer), k) == Button(true, CooldownLabel(n - k), timer)
  {
    if k > 0 {
      var next := Button(true, CooldownLabel(n - 1), timer);
      TickCountsDown(n, timer);
      TicksAfter(Button(true, CooldownLabel(n), timer), next, k);
      CountdownShowsRemaining(n - 1, k - 1, timer);
      assert Ticks(next, k - 1) == Button(true, CooldownLabel(n - k), timer) by {
        assert n - 1 - (k - 1) == n - k;
      }
    }
  }

  /** window.restartCooldownTimer and the button it drives. */
  class RestartButton {
    var disabled: bool
    var text: string
    var timer: bool

    /** The page's first button state comes from its HTML, which is not part of this model: assumed enabled, idle and without a timer. */
    constructor()
      ensures !disabled && text == IDLE_LABEL && !timer
    {
      disabled := false;
      text := IDLE_LABEL;
      timer := false;
    }

    function State(): Button
      reads this
    {
      Button(disabled, text, timer)
    }

    /** updateRestartButton: a positive cooldown disables the button and starts a timer if none runs; otherwise it is enabled. */
    method Update(cooldownRemaining: int)
      modifies this
      ensures cooldownRemaining > 0 ==> State() == Button(true, CooldownLabel(cooldownRemaining), true)
      ensures cooldownRemaining <= 0 ==> State() == Button(false, IDLE_LABEL, false)
    {
      if cooldownRemaining > 0 {
        disabled := true;
        text := CooldownLabel(cooldownRemaining);
        if !timer {
          timer := true;
        }
      } else {
        if timer {
          timer := false;
        }
        disabled := false;
        text := IDLE_LABEL;
      }
    }

    /** The interval callback of the cooldown timer. */
    method OnTick()
      modifies this
      ensures State() == Tick(old(State()))
    {
      var m := FindSeconds(text);
      if m.Some? {
        var seconds := m.value;
        if seconds > 1 {
          text := CooldownLabel(seconds - 1);
        } else {
          disabled := false;
          text := IDLE_LABEL;
          timer := false;
        }
      }
    }
  }

  // ---------------------------------------------------------------------------
  // The restart-vote notice
  // ---------------------------------------------------------------------------

  /** The toast showVoteStatus opens: its title, whether it closes by itself, and its confirm button. */
  datatype Toast = Toast(title: string, timer: Option<int>, showConfirmButton: bool)

  /** While votes are missing the notice stays with a confirm button; once all are in it closes after 3 s. */
  function VoteToast(count: nat, total: nat): (r: Toast)
    ensures r.timer == None <==> count < total
    ensures r.timer != None ==> r.timer.value == 3000
    ensures r.showConfirmButton <==> r.timer == None
  {
    Toast(Decimal(count) + "/" + Decimal(total) + " agreed to restart",
          if count < total then None else Some(3000),
          count < total)
  }
}
