/** What the gateway does with policy: nothing, report, or enforce. */
module Modes {
  datatype Mode = Observe | Shadow | Enforce
}

/** How the gateway reads the name of an MCP method: the canonical alphabet, the
    normalised spelling, and where a call that is not a tool call goes. */
module MethodNames {
  import opened Modes

  predicate CanonicalChar(c: char) {
    'a' <= c <= 'z' || 'A' <= c <= 'Z' || '0' <= c <= '9' || c == '/' || c == '_' || c == '-' || c == '.'
  }

  /** `mcp_method_is_canonical` */
  predicate Canonical(name: string) {
    0 < |name| <= 128 && forall i :: 0 <= i < |name| ==> CanonicalChar(name[i])
  }

  function LowerChar(c: char): char {
    if 'A' <= c <= 'Z' then c - 'A' + 'a' else c
  }

  /** `to_ascii_lowercase` */
  function Lower(s: string): string {
    seq(|s|, i requires 0 <= i < |s| => LowerChar(s[i]))
  }

  /** The Unicode white space that `trim` removes. */
  predicate Space(c: char) {
    '\t' <= c <= '\r' || c == ' ' || c == '\U{85}' || c == '\U{A0}' || c == '\U{1680}' || '\U{2000}' <= c <= '\U{200A}'
    || c == '\U{2028}' || c == '\U{2029}' || c == '\U{202F}' || c == '\U{205F}' || c == '\U{3000}'
  }

  function Trim(s: string): string {
    if s != "" && Space(s[0]) then Trim(s[1..])
    else if s != "" && Space(s[|s| - 1]) then Trim(s[..|s| - 1])
    else s
  }

  /** A backslash, a division slash or a fraction slash becomes a slash. */
  function SlashChar(c: char): char {
    if c == '\\' || c == '\U{2215}' || c == '\U{2044}' then '/' else c
  }

  function Slashed(s: string): string {
    seq(|s|, i requires 0 <= i < |s| => SlashChar(s[i]))
  }

  /** `replace`: every match of `pat`, left to right and without overlap. */
  function ReplaceAll(s: string, pat: string, rep: string): string
    requires pat != ""
  {
    if |s| < |pat| then s
    else if s[..|pat|] == pat then rep + ReplaceAll(s[|pat|..], pat, rep)
    else [s[0]] + ReplaceAll(s[1..], pat, rep)
  }

  predicate ContainsSlashes(s: string) {
    exists i :: 0 <= i < |s| - 1 && s[i] == '/' && s[i + 1] == '/'
  }

  /** One pass that leaves a single slash of every run. */
  function Collapse(s: string): string {
    if |s| < 2 then s
    else if s[0] == '/' && s[1] == '/' then Collapse(s[1..])
    else [s[0]] + Collapse(s[1..])
  }

  lemma {:induction false} CollapseStart(s: string)
    ensures (Collapse(s) == "") == (s == "")
    ensures s != "" ==> Collapse(s)[0] == s[0]
  {
    if |s| >= 2 {
      CollapseStart(s[1..]);
    }
  }

  lemma CollapseCons(c: char, x: string, y: string)
    requires Collapse(x) == Collapse(y)
    ensures Collapse([c] + x) == Collapse([c] + y)
  {
    CollapseStart(x);
    CollapseStart(y);
    assert ([c] + x)[1..] == x && ([c] + y)[1..] == y;
  }

  /** Replacing double slashes does not change the collapsed name. */
  lemma {:induction false} ReplaceKeepsCollapse(s: string)
    ensures Collapse(ReplaceAll(s, "//", "/")) == Collapse(s)
    decreases |s|
  {
    if |s| >= 2 {
      if s[..2] == "//" {
        ReplaceKeepsCollapse(s[2..]);
        CollapseCons('/', ReplaceAll(s[2..], "//", "/"), s[2..]);
        assert s[1..] == ['/'] + s[2..];
      } else {
        ReplaceKeepsCollapse(s[1..]);
        CollapseCons(s[0], ReplaceAll(s[1..], "//", "/"), s[1..]);
        assert s == [s[0]] + s[1..];
      }
    }
  }

  lemma {:induction false} ReplaceShortens(s: string)
    ensures |ReplaceAll(s, "//", "/")| <= |s|
    ensures ContainsSlashes(s) ==> |ReplaceAll(s, "//", "/")| < |s|
    decreases |s|
  {
    if |s| >= 2 {
      if s[..2] == "//" {
        ReplaceShortens(s[2..]);
      } else {
        ReplaceShortens(s[1..]);
        if i :| 0 <= i < |s| - 1 && s[i] == '/' && s[i + 1] == '/' {
          assert i != 0 by { assert s[..2] == [s[0], s[1]]; }
          assert s[1..][i - 1] == '/' && s[1..][i] == '/';
        }
      }
    }
  }

  lemma ContainsInTail(s: string)
    requires s != ""
    ensures ContainsSlashes(s[1..]) ==> ContainsSlashes(s)
  {
    if i :| 0 <= i < |s[1..]| - 1 && s[1..][i] == '/' && s[1..][i + 1] == '/' {
      assert s[i + 1] == '/' && s[i + 2] == '/';
    }
  }

  lemma {:induction false} CollapsedAlready(s: string)
    requires !ContainsSlashes(s)
    ensures Collapse(s) == s
  {
    if |s| >= 2 {
      ContainsInTail(s);
      CollapsedAlready(s[1..]);
    }
  }

  /** The loop that replaces double slashes until none is left ends, and what it
      leaves is the one-pass collapse. */
  method CollapseSlashes(name: string) returns (normalized: string)
    ensures normalized == Collapse(name)
    ensures !ContainsSlashes(normalized)
  {
    normalized := name;
    while ContainsSlashes(normalized)
      invariant Collapse(normalized) == Collapse(name)
      decreases |normalized|
    {
      ReplaceShortens(normalized);
      ReplaceKeepsCollapse(normalized);
      normalized := ReplaceAll(normalized, "//", "/");
    }
    CollapsedAlready(normalized);
  }

  /** The normalised spelling before slashes are collapsed. */
  function Spelled(name: string): string {
    ReplaceAll(ReplaceAll(Slashed(Lower(Trim(name))), "%2f", "/"), "%5c", "/")
  }

  lemma {:induction false} NothingToReplace(s: string, pat: string, rep: string)
    requires |pat| == 3 && pat[0] == '%' && forall i :: 0 <= i < |s| ==> s[i] != '%'
    ensures ReplaceAll(s, pat, rep) == s
  {
    if |s| >= 3 {
      assert s[..3][0] != pat[0];
      NothingToReplace(s[1..], pat, rep);
    }
  }

  /** A canonical name has nothing to trim, no foreign slash and no escape. */
  lemma CanonicalSpelling(name: string)
    requires Canonical(name)
    ensures Spelled(name) == Lower(name)
  {
    assert CanonicalChar(name[0]) && CanonicalChar(name[|name| - 1]);
    assert Trim(name) == name;
    assert forall i :: 0 <= i < |name| ==> CanonicalChar(name[i]) && Lower(name)[i] == LowerChar(name[i]);
    assert Slashed(Lower(name)) == Lower(name);
    NothingToReplace(Lower(name), "%2f", "/");
    NothingToReplace(Lower(name), "%5c", "/");
  }

  const TOOLS_CALL := "tools/call"

  predicate Confusable(normalized: string) {
    normalized == TOOLS_CALL || TOOLS_CALL + "/" <= normalized
  }

  predicate NonToolControlAllowed(name: string) {
    name in {"initialize", "ping", "tools/list", "resources/list", "resources/templates/list", "prompts/list",
             "logging/setLevel"}
    || "notifications/" <= name
  }

  datatype Route = Invalid | ToolCall | ConfusableRefused | Forward | NotRecorded | NonToolDenied

  /** Where a request goes by its method name. `recorded` is whether the evidence
      of a denied method could be written. */
  method Classify(mode: Mode, name: string, recorded: bool) returns (route: Route)
    ensures route == RouteOf(mode, name, recorded)
  {
    if !Canonical(name) {
      return Invalid;
    }
    if name == TOOLS_CALL {
      return ToolCall;
    }
    var normalized := CollapseSlashes(Spelled(name));
    CanonicalSpelling(name);
    if normalized == TOOLS_CALL || TOOLS_CALL + "/" <= normalized {
      return ConfusableRefused;
    }
    if NonToolControlAllowed(name) {
      return Forward;
    }
    if mode != Observe {
      if !recorded && mode == Enforce {
        return NotRecorded;
      }
      if mode == Enforce {
        return NonToolDenied;
      }
    }
    return Forward;
  }

  /** The meaning of the classification: names compare as an upstream that ignores
      case and repeated slashes would read them. */
  function RouteOf(mode: Mode, name: string, recorded: bool): Route {
    if !Canonical(name) then Invalid
    else if name == TOOLS_CALL then ToolCall
    else if Confusable(Collapse(Lower(name))) then ConfusableRefused
    else if mode.Enforce? && !NonToolControlAllowed(name) then (if recorded then NonToolDenied else NotRecorded)
    else Forward
  }

  /** No allowed control method is a spelling of a tool call. */
  lemma ControlIsNotConfusable(name: string)
    requires NonToolControlAllowed(name)
    ensures !Confusable(Collapse(Lower(name)))
  {
    var l := Lower(name);
    if name == "tools/list" {
      assert l == "tools/list";
      CollapsedAlready(l);
      assert l[6] == 'l' && TOOLS_CALL[6] == 'c';
    } else {
      assert name != "" && name[0] != 't' && name[0] != 'T';
      CollapseStart(l);
      assert Collapse(l)[0] == LowerChar(name[0]) && TOOLS_CALL[0] == 't';
    }
  }

  /** In enforce mode exactly the tool call itself and the allowed control methods
      get past the name check; whatever reads as a tool call without being spelled
      so does not, in any mode. */
  lemma EnforcedNames(name: string, recorded: bool)
    ensures RouteOf(Enforce, name, recorded) == Forward <==> Canonical(name) && NonToolControlAllowed(name)
    ensures forall mode :: RouteOf(mode, name, recorded) == Forward ==> !Confusable(Collapse(Lower(name)))
    ensures RouteOf(Enforce, name, recorded) in {NonToolDenied, NotRecorded} ==>
              RouteOf(Enforce, name, recorded) == if recorded then NonToolDenied else NotRecorded
    ensures forall mode: Mode :: !mode.Enforce? ==> RouteOf(mode, name, recorded) !in {NonToolDenied, NotRecorded}
  {
    if NonToolControlAllowed(name) {
      ControlIsNotConfusable(name);
    }
  }

  // ---- the spellings that are refused --------------------------------------

  /** `s` is the lower-case word `word`, each letter in either case. */
  predicate Variant(s: string, word: string) {
    |s| == |word| && forall i :: 0 <= i < |s| ==> s[i] == word[i] || s[i] as int + 32 == word[i] as int
  }

  function Slashes(k: nat): string {
    seq(k, i => '/')
  }

  lemma {:induction false} CollapseWord(word: string, rest: string)
    requires forall i :: 0 <= i < |word| ==> word[i] != '/'
    ensures Collapse(word + rest) == word + Collapse(rest)
  {
    if word == "" {
      assert word + rest == rest;
    } else {
      CollapseWord(word[1..], rest);
      assert (word + rest)[1..] == word[1..] + rest;
      assert word == [word[0]] + word[1..];
    }
  }

  lemma {:induction false} CollapseRun(k: nat, rest: string)
    requires k >= 1 && rest != "" && rest[0] != '/'
    ensures Collapse(Slashes(k) + rest) == "/" + Collapse(rest)
  {
    var s := Slashes(k) + rest;
    if k > 1 {
      assert s[1..] == Slashes(k - 1) + rest;
      CollapseRun(k - 1, rest);
    } else {
      assert s[1..] == rest;
    }
  }

  lemma LowerOfVariant(s: string, word: string)
    requires Variant(s, word) && forall i :: 0 <= i < |word| ==> 'a' <= word[i] <= 'z'
    ensures Lower(s) == word && forall i :: 0 <= i < |s| ==> CanonicalChar(s[i])
  {
    forall i | 0 <= i < |s|
      ensures LowerChar(s[i]) == word[i] && CanonicalChar(s[i])
    {
    }
  }

  lemma LowerOfSum(a: string, b: string)
    ensures Lower(a + b) == Lower(a) + Lower(b)
  {}

  lemma WordsCollapse(first: string, k: nat, second: string, rest: string)
    requires forall i :: 0 <= i < |first| ==> first[i] != '/'
    requires second != "" && forall i :: 0 <= i < |second| ==> second[i] != '/'
    requires k >= 1
    ensures Collapse(first + (Slashes(k) + (second + rest))) == first + ("/" + (second + Collapse(rest)))
  {
    CollapseWord(first, Slashes(k) + (second + rest));
    CollapseRun(k, second + rest);
    CollapseWord(second, rest);
  }

  lemma SpellingCollapses(k: nat, rest: string)
    requires k >= 1 && (rest == "" || rest[0] == '/')
    ensures Confusable(Collapse("tools" + (Slashes(k) + ("call" + rest))))
  {
    WordsCollapse("tools", k, "call", rest);
    CollapseStart(rest);
    JoinsTo(Collapse(rest));
  }

  lemma JoinsTo(rest: string)
    requires rest == "" || rest[0] == '/'
    ensures Confusable("tools" + ("/" + ("call" + rest)))
  {
    assert "tools" + ("/" + ("call" + rest)) == TOOLS_CALL + rest;
  }

  /** Any letter case of `tools/call`, with any number of slashes in the middle and
      any canonical path after it, is refused in every mode, unless it is exactly
      `tools/call`. */
  lemma SpellingsAreRefused(mode: Mode, recorded: bool, a: string, k: nat, b: string, rest: string)
    requires Variant(a, "tools") && Variant(b, "call") && k >= 1
    requires rest == "" || rest[0] == '/'
    requires forall i :: 0 <= i < |rest| ==> CanonicalChar(rest[i])
    requires var name := a + (Slashes(k) + (b + rest)); |name| <= 128 && name != "tools/call"
    ensures RouteOf(mode, a + (Slashes(k) + (b + rest)), recorded) == ConfusableRefused
  {
    var name := a + (Slashes(k) + (b + rest));
    LowerOfVariant(a, "tools");
    LowerOfVariant(b, "call");
    LowerOfSum(a, Slashes(k) + (b + rest));
    LowerOfSum(Slashes(k), b + rest);
    LowerOfSum(b, rest);
    assert Lower(Slashes(k)) == Slashes(k);
    SpellingCollapses(k, Lower(rest));
    assert Canonical(name);
  }

  /** For instance. */
  lemma CapitalsAreRefused(mode: Mode, recorded: bool)
    ensures RouteOf(mode, "Tools/Call", recorded) == ConfusableRefused
    ensures RouteOf(mode, "tools/call", recorded) == ToolCall
  {
    var rest := "";
    assert "Tools" + (Slashes(1) + ("Call" + rest)) == "Tools/Call";
    assert Variant("Tools", "tools") && Variant("Call", "call");
    SpellingsAreRefused(mode, recorded, "Tools", 1, "Call", rest);
    assert "tools/call" == TOOLS_CALL;
    assert Canonical("tools/call");
  }
}
