/** Key-chord resolution of the image viewer: deciding whether a pressed key,
    together with the held modifiers, triggers a named action or a user command. */
module InputHandling {

  import opened Wrappers

  /** The modifier keys held while a key is pressed (winit's ModifiersState). */
  datatype Modifiers = Modifiers(shift: bool, ctrl: bool, alt: bool, logo: bool)

  /** The host platform; it decides what the `CmdCtrl` token stands for. */
  datatype Platform = MacOs | OtherOs

  /** The modifiers a chord names, or that are held: shift plays no part. */
  datatype ModifierSet = ModifierSet(alt: bool, ctrl: bool, logo: bool)

  /** A user command from the configuration file. */
  datatype EnvVar = EnvVar(name: string, value: string)
  datatype UserCommand = UserCommand(input: seq<string>, program: string,
                                     args: Option<seq<string>>, envs: Option<seq<EnvVar>>)

  /** What would be handed to the process spawner for one triggered command. */
  datatype Invocation = Invocation(program: string, args: seq<string>, envs: seq<EnvVar>)

  /** The already-parsed configuration: optional bindings and optional commands. */
  datatype Configuration = Configuration(bindings: Option<map<string, seq<string>>>,
                                         commands: Option<seq<UserCommand>>)

  // ---------------------------------------------------------------------------
  // String primitives, as Rust's str API behaves on them
  // ---------------------------------------------------------------------------

  /** `s.split(sep)`: the pieces between separators; always at least one piece. */
  function Split(s: string, sep: char): (parts: seq<string>)
    ensures |parts| >= 1
  {
    if |s| == 0 then [""]
    else
      var rest := Split(s[1..], sep);
      if s[0] == sep then [""] + rest
      else [[s[0]] + rest[0]] + rest[1..]
  }

  /** The pieces put back together with the separator between them. */
  function Join(parts: seq<string>, sep: char): string
    requires |parts| >= 1
  {
    if |parts| == 1 then parts[0] else parts[0] + [sep] + Join(parts[1..], sep)
  }

  /** Rust's `char::is_whitespace`: the Unicode White_Space property. */
  predicate IsWhitespace(c: char) {
    ('\U{0009}' <= c <= '\U{000D}') || c == ' ' || c == '\U{0085}' || c == '\U{00A0}'
    || c == '\U{1680}' || ('\U{2000}' <= c <= '\U{200A}') || c == '\U{2028}' || c == '\U{2029}'
    || c == '\U{202F}' || c == '\U{205F}' || c == '\U{3000}'
  }

  /** `s.trim_start()`. */
  function TrimStart(s: string): string {
    if |s| > 0 && IsWhitespace(s[0]) then TrimStart(s[1..]) else s
  }

  /** `s.trim_end()`. */
  function TrimEnd(s: string): string {
    if |s| > 0 && IsWhitespace(s[|s| - 1]) then TrimEnd(s[..|s| - 1]) else s
  }

  /** `s.trim()`. */
  function Trim(s: string): string {
    TrimEnd(TrimStart(s))
  }

  predicate IsAsciiUpper(c: char) {
    'A' <= c <= 'Z'
  }

  function LowerChar(c: char): char {
    if IsAsciiUpper(c) then (c as int - 'A' as int + 'a' as int) as char else c
  }

  /** `s.to_lowercase()`, on the ASCII letters. */
  function Lower(s: string): string {
    if |s| == 0 then "" else [LowerChar(s[0])] + Lower(s[1..])
  }

  /** `p` occurs in `s` as a contiguous piece. */
  predicate Occurs(p: string, s: string) {
    |p| <= |s| && (s[..|p|] == p || (|s| > 0 && Occurs(p, s[1..])))
  }

  /** `s.replace(from, to)`: every non-overlapping occurrence of `from`, taken
      from the left, replaced by `to`; an empty `from` matches at every char
      boundary, the start and the end included. */
  function Replace(s: string, from: string, to: string): string
    decreases |s|
  {
    if |from| == 0 then
      if |s| == 0 then to else to + [s[0]] + Replace(s[1..], from, to)
    else if |s| < |from| then s
    else if s[..|from|] == from then to + Replace(s[|from|..], from, to)
    else [s[0]] + Replace(s[1..], from, to)
  }

  // ---------------------------------------------------------------------------
  // Chords
  // ---------------------------------------------------------------------------

  /** Each piece trimmed and lowercased. */
  function Normalise(pieces: seq<string>): (tokens: seq<string>)
    ensures |tokens| == |pieces|
  {
    if |pieces| == 0 then [] else [Lower(Trim(pieces[0]))] + Normalise(pieces[1..])
  }

  /** The chord's tokens: split on `+`, each trimmed and lowercased. */
  function Parts(chord: string): (parts: seq<string>)
    ensures |parts| >= 1
  {
    Normalise(Split(chord, '+'))
  }

  /** The key a chord asks for: its last token. */
  function KeyToken(chord: string): string {
    var parts := Parts(chord);
    parts[|parts| - 1]
  }

  /** Every token before the last one. */
  function ModifierTokens(chord: string): seq<string> {
    var parts := Parts(chord);
    parts[..|parts| - 1]
  }

  /** The modifier set named by a list of modifier tokens; unknown tokens name nothing. */
  function Implied(tokens: seq<string>, platform: Platform): ModifierSet {
    ModifierSet(
      "alt" in tokens,
      "ctrl" in tokens || (platform == OtherOs && "cmdctrl" in tokens),
      "logo" in tokens || (platform == MacOs && "cmdctrl" in tokens))
  }

  function Held(mods: Modifiers): ModifierSet {
    ModifierSet(mods.alt, mods.ctrl, mods.logo)
  }

  /** A chord fires when its key equals the input key and the modifiers it names
      are exactly the held ones. */
  predicate ChordMatches(chord: string, inputKey: string, mods: Modifiers, platform: Platform) {
    KeyToken(chord) == inputKey && Implied(ModifierTokens(chord), platform) == Held(mods)
  }

  /** Some chord of the list fires. */
  predicate Triggered(keys: seq<string>, inputKey: string, mods: Modifiers, platform: Platform) {
    exists i :: 0 <= i < |keys| && ChordMatches(keys[i], inputKey, mods, platform)
  }

  /** The flag-collecting loop of keys_triggered: one pass over the modifier
      tokens, each known token raising its flag. */
  method CollectModifiers(tokens: seq<string>, platform: Platform) returns (found: ModifierSet)
    ensures found == Implied(tokens, platform)
  {
    var hasAlt, hasCtrl, hasLogo := false, false, false;
    for j := 0 to |tokens|
      invariant hasAlt == ("alt" in tokens[..j])
      invariant hasCtrl == ("ctrl" in tokens[..j] || (platform == OtherOs && "cmdctrl" in tokens[..j]))
      invariant hasLogo == ("logo" in tokens[..j] || (platform == MacOs && "cmdctrl" in tokens[..j]))
    {
      assert tokens[..j + 1] == tokens[..j] + [tokens[j]];
      var token := tokens[j];
      if token == "alt" {
        hasAlt := true;
      } else if token == "ctrl" {
        hasCtrl := true;
      } else if token == "logo" {
        hasLogo := true;
      } else if token == "cmdctrl" {
        if platform == MacOs {
          hasLogo := true;
        } else {
          hasCtrl := true;
        }
      }
    }
    assert tokens[..|tokens|] == tokens;
    found := ModifierSet(hasAlt, hasCtrl, hasLogo);
  }

  /** One turn of keys_triggered's loop: the chord's last token must equal the
      input key, and the modifier flags it raises must equal the held ones. */
  method ChordFires(chord: string, inputKey: string, mods: Modifiers, platform: Platform)
    returns (fires: bool)
    ensures fires <==> ChordMatches(chord, inputKey, mods, platform)
  {
    var parts := Parts(chord);
    var key := parts[|parts| - 1];
    assert key == KeyToken(chord);
    if inputKey != key {
      return false;
    }
    var found := CollectModifiers(parts[..|parts| - 1], platform);
    assert found == Implied(ModifierTokens(chord), platform);
    fires := found == Held(mods);
  }

  /** keys_triggered: walks the chords in order and answers true at the first
      chord that fires. */
  method KeysTriggered(keys: seq<string>, inputKey: string, mods: Modifiers, platform: Platform)
    returns (triggered: bool)
    ensures triggered <==> Triggered(keys, inputKey, mods, platform)
  {
    for k := 0 to |keys|
      invariant forall i :: 0 <= i < k ==> !ChordMatches(keys[i], inputKey, mods, platform)
    {
      var fires := ChordFires(keys[k], inputKey, mods, platform);
      if fires {
        return true;
      }
    }
    return false;
  }

  // ---------------------------------------------------------------------------
  // Actions
  // ---------------------------------------------------------------------------

  /** The built-in bindings, consulted when the user has not bound an action. */
  const DefaultBindings: map<string, seq<string>> := map[
    "toggle_fullscreen" := ["F11", "Return"],
    "escape" := ["Escape", "Q"],
    "img_next" := ["D", "Right", "PageDown"],
    "img_prev" := ["A", "Left", "PageUp"],
    "img_orig" := ["1"],
    "img_fit" := ["F"],
    "img_fit_best" := ["E"],
    "img_del" := ["Delete"],
    "img_copy" := ["CmdCtrl+C"],
    "pan" := ["Space"],
    "play_anim" := ["Alt+A", "Alt+V"],
    "play_present" := ["P"],
    "play_present_rnd" := ["Alt+P"],
    "toggle_antialias" := ["S"],
    "automatic_antialias" := ["Alt+S"]
  ]

  /** The default table binds every action it lists to at least one chord, and
      leaves the panning-direction, axis-panning and zoom actions unbound. */
  lemma DefaultBindingsTable()
    ensures forall a :: a in DefaultBindings ==> |DefaultBindings[a]| >= 1
    ensures "toggle_fullscreen" in DefaultBindings && "escape" in DefaultBindings
            && "img_copy" in DefaultBindings && DefaultBindings["img_copy"] == ["CmdCtrl+C"]
    ensures "pan_vert" !in DefaultBindings && "pan_hor" !in DefaultBindings
    ensures "zoom_in" !in DefaultBindings && "zoom_out" !in DefaultBindings
    ensures "pan_left" !in DefaultBindings && "pan_right" !in DefaultBindings
    ensures "pan_up" !in DefaultBindings && "pan_down" !in DefaultBindings
  {
  }

  /** The chord list an action is resolved with: the user's, else the default, else none. */
  function ChordsFor(bindings: Option<map<string, seq<string>>>, action: string): seq<string> {
    if bindings.Some? && action in bindings.value then bindings.value[action]
    else if action in DefaultBindings then DefaultBindings[action]
    else []
  }

  /** action_triggered. */
  method ActionTriggered(config: Configuration, action: string, inputKey: string,
                         mods: Modifiers, platform: Platform)
    returns (triggered: bool)
    ensures config.bindings.Some? && action in config.bindings.value ==>
              (triggered <==> Triggered(config.bindings.value[action], inputKey, mods, platform))
    ensures !(config.bindings.Some? && action in config.bindings.value) ==>
              (triggered <==> action in DefaultBindings
                              && Triggered(DefaultBindings[action], inputKey, mods, platform))
  {
    triggered := KeysTriggered(ChordsFor(config.bindings, action), inputKey, mods, platform);
  }

  /** char_to_input_key: the key name a typed character is bound under. */
  function CharToInputKey(ch: string): (key: string)
    ensures key != " " && key != "+" && key != "-"
    ensures ch == " " ==> key == "space"
    ensures ch == "+" ==> key == "add"
    ensures ch == "-" ==> key == "subtract"
    ensures ch != " " && ch != "+" && ch != "-" ==> key == ch
  {
    if ch == " " then "space"
    else if ch == "+" then "add"
    else if ch == "-" then "subtract"
    else ch
  }

  // ---------------------------------------------------------------------------
  // User commands
  // ---------------------------------------------------------------------------

  /** The replacements of a variable map applied in the map's iteration order. */
  function SubstituteAll(s: string, varMap: seq<(string, string)>): string {
    if |varMap| == 0 then s
    else
      var last := varMap[|varMap| - 1];
      Replace(SubstituteAll(s, varMap[..|varMap| - 1]), last.0, last.1)
  }

  /** substitute_command_parameters; `varMap` lists the map's entries in the
      order the hash map yields them. */
  method SubstituteCommandParameters(s: string, varMap: seq<(string, string)>)
    returns (result: string)
    ensures result == SubstituteAll(s, varMap)
    ensures |varMap| == 0 ==> result == s
  {
    result := s;
    for i := 0 to |varMap|
      invariant result == SubstituteAll(s, varMap[..i])
    {
      assert varMap[..i + 1][..i] == varMap[..i];
      var (name, substitute) := varMap[i];
      result := Replace(result, name, substitute);
    }
    assert varMap[..|varMap|] == varMap;
  }

  /** The two placeholders, in the hash map's iteration order. */
  function CommandVariables(imgPath: string, folderPath: string, imgFirst: bool): seq<(string, string)> {
    if imgFirst then [("${img}", imgPath), ("${folder}", folderPath)]
    else [("${folder}", folderPath), ("${img}", imgPath)]
  }

  function SubstitutedArgs(args: seq<string>, varMap: seq<(string, string)>): (r: seq<string>)
    ensures |r| == |args|
  {
    seq(|args|, i requires 0 <= i < |args| => SubstituteAll(args[i], varMap))
  }

  /** The process a triggered command would start. */
  function Invoke(c: UserCommand, varMap: seq<(string, string)>): Invocation {
    Invocation(c.program,
               if c.args.Some? then SubstitutedArgs(c.args.value, varMap) else [],
               if c.envs.Some? then c.envs.value else [])
  }

  /** The commands that fire, in configuration order. */
  function Selected(commands: seq<UserCommand>, inputKey: string, mods: Modifiers,
                    platform: Platform, varMap: seq<(string, string)>): seq<Invocation>
  {
    if |commands| == 0 then []
    else
      var last := commands[|commands| - 1];
      Selected(commands[..|commands| - 1], inputKey, mods, platform, varMap)
      + (if Triggered(last.input, inputKey, mods, platform) then [Invoke(last, varMap)] else [])
  }

  /** The selection part of execute_triggered_commands: every command whose chords
      fire, with `${img}` and `${folder}` substituted in its arguments. */
  method TriggeredCommands(config: Configuration, inputKey: string, mods: Modifiers,
                           platform: Platform, imgPath: string, folderPath: string, imgFirst: bool)
    returns (invocations: seq<Invocation>)
    ensures config.commands.None? ==> invocations == []
    ensures config.commands.Some? ==>
              invocations == Selected(config.commands.value, inputKey, mods, platform,
                                      CommandVariables(imgPath, folderPath, imgFirst))
  {
    invocations := [];
    if config.commands.Some? {
      var commands := config.commands.value;
      var varMap := CommandVariables(imgPath, folderPath, imgFirst);
      for i := 0 to |commands|
        invariant invocations == Selected(commands[..i], inputKey, mods, platform, varMap)
      {
        assert commands[..i + 1][..i] == commands[..i];
        var command := commands[i];
        var fires := KeysTriggered(command.input, inputKey, mods, platform);
        if fires {
          var args: seq<string> := [];
          if command.args.Some? {
            var given := command.args.value;
            for j := 0 to |given|
              invariant args == SubstitutedArgs(given[..j], varMap)
            {
              var arg := SubstituteCommandParameters(given[j], varMap);
              args := args + [arg];
            }
            assert given[..|given|] == given;
          }
          var envs := if command.envs.Some? then command.envs.value else [];
          invocations := invocations + [Invocation(command.program, args, envs)];
        }
      }
      assert commands[..|commands|] == commands;
    }
  }

  // ---------------------------------------------------------------------------
  // Properties
  // ---------------------------------------------------------------------------

  /** No piece of a split holds the separator. */
  lemma {:induction false} SplitPiecesLackSeparator(s: string, sep: char)
    ensures forall i :: 0 <= i < |Split(s, sep)| ==> sep !in Split(s, sep)[i]
  {
    if |s| > 0 {
      SplitPiecesLackSeparator(s[1..], sep);
      var rest := Split(s[1..], sep);
      if s[0] != sep {
        assert forall c :: c in [s[0]] + rest[0] ==> c == s[0] || c in rest[0];
      }
    }
  }

  /** `trim_start` drops a run of leading whitespace and keeps the rest. */
  lemma {:induction false} TrimStartKeepsSuffix(s: string)
    ensures |TrimStart(s)| <= |s| && TrimStart(s) == s[|s| - |TrimStart(s)|..]
    ensures |TrimStart(s)| > 0 ==> !IsWhitespace(TrimStart(s)[0])
    ensures forall i :: 0 <= i < |s| - |TrimStart(s)| ==> IsWhitespace(s[i])
  {
    if |s| > 0 && IsWhitespace(s[0]) {
      TrimStartKeepsSuffix(s[1..]);
    }
  }

  /** `trim_end` drops a run of trailing whitespace and keeps the rest. */
  lemma {:induction false} TrimEndKeepsPrefix(s: string)
    ensures |TrimEnd(s)| <= |s| && TrimEnd(s) == s[..|TrimEnd(s)|]
    ensures |TrimEnd(s)| > 0 ==> !IsWhitespace(TrimEnd(s)[|TrimEnd(s)| - 1])
    ensures forall i :: |TrimEnd(s)| <= i < |s| ==> IsWhitespace(s[i])
  {
    if |s| > 0 && IsWhitespace(s[|s| - 1]) {
      TrimEndKeepsPrefix(s[..|s| - 1]);
    }
  }

  /** Trimming keeps a contiguous piece of the string, with no whitespace at
      either end, and leaves a blank-free string alone. */
  lemma TrimKeepsInterior(s: string)
    ensures forall c :: c in Trim(s) ==> c in s
    ensures |Trim(s)| > 0 ==> !IsWhitespace(Trim(s)[0]) && !IsWhitespace(Trim(s)[|Trim(s)| - 1])
    ensures (forall i :: 0 <= i < |s| ==> !IsWhitespace(s[i])) ==> Trim(s) == s
  {
    TrimStartKeepsSuffix(s);
    var t := TrimStart(s);
    TrimEndKeepsPrefix(t);
    assert forall c :: c in t ==> c in s;
    if (forall i :: 0 <= i < |s| ==> !IsWhitespace(s[i])) {
      assert |s| > 0 ==> !IsWhitespace(s[0]);
      assert t == s;
      assert |s| > 0 ==> !IsWhitespace(s[|s| - 1]);
    }
  }

  /** Lowercasing works character by character, keeps the length and leaves no
      ASCII capital behind. */
  lemma {:induction false} LowerMapsAsciiOnly(s: string)
    ensures |Lower(s)| == |s|
    ensures forall i :: 0 <= i < |s| ==> Lower(s)[i] == LowerChar(s[i])
    ensures forall i :: 0 <= i < |s| ==> !IsAsciiUpper(Lower(s)[i])
  {
    if |s| > 0 {
      LowerMapsAsciiOnly(s[1..]);
    }
  }

  /** The i-th token is the i-th piece, trimmed and lowercased. */
  lemma {:induction false} NormaliseAt(pieces: seq<string>, i: nat)
    requires i < |pieces|
    ensures Normalise(pieces)[i] == Lower(Trim(pieces[i]))
  {
    if i > 0 {
      NormaliseAt(pieces[1..], i - 1);
    }
  }

  /** Splitting a string that holds no separator gives that string back. */
  lemma {:induction false} SplitNoSeparator(s: string, sep: char)
    requires sep !in s
    ensures Split(s, sep) == [s]
  {
    if |s| > 0 {
      SplitNoSeparator(s[1..], sep);
      assert [s[0]] + s[1..] == s;
    }
  }

  /** A leading separator-free piece splits off as the first part. */
  lemma {:induction false} SplitPrefix(u: string, sep: char, rest: string)
    requires sep !in u
    ensures Split(u + [sep] + rest, sep) == [u] + Split(rest, sep)
  {
    if |u| == 0 {
      assert u + [sep] + rest == [sep] + rest;
      assert ([sep] + rest)[1..] == rest;
    } else {
      SplitPrefix(u[1..], sep, rest);
      assert (u + [sep] + rest)[1..] == u[1..] + [sep] + rest;
      assert [u[0]] + u[1..] == u;
    }
  }

  /** Round trip: joining the parts of a split gives the string back. */
  lemma {:induction false} JoinSplit(s: string, sep: char)
    ensures Join(Split(s, sep), sep) == s
  {
    if |s| > 0 {
      JoinSplit(s[1..], sep);
      var rest := Split(s[1..], sep);
      if s[0] == sep {
        assert Split(s, sep)[1..] == rest;
        assert s == [sep] + s[1..];
      } else {
        var parts := Split(s, sep);
        if |rest| == 1 {
          assert s == [s[0]] + s[1..];
        } else {
          assert parts[1..] == rest[1..];
          assert Join(rest, sep) == rest[0] + [sep] + Join(rest[1..], sep);
          assert s == [s[0]] + s[1..];
        }
      }
    }
  }

  /** Round trip the other way: separator-free pieces joined and split come back. */
  lemma {:induction false} SplitJoin(parts: seq<string>, sep: char)
    requires |parts| >= 1
    requires forall i :: 0 <= i < |parts| ==> sep !in parts[i]
    ensures Split(Join(parts, sep), sep) == parts
  {
    if |parts| == 1 {
      SplitNoSeparator(parts[0], sep);
    } else {
      SplitJoin(parts[1..], sep);
      SplitPrefix(parts[0], sep, Join(parts[1..], sep));
      assert [parts[0]] + parts[1..] == parts;
    }
  }

  /** Chord order does not matter: only which chords the list holds. */
  lemma ChordOrderIrrelevant(keys1: seq<string>, keys2: seq<string>, inputKey: string,
                             mods: Modifiers, platform: Platform)
    requires forall c :: c in keys1 <==> c in keys2
    ensures Triggered(keys1, inputKey, mods, platform) == Triggered(keys2, inputKey, mods, platform)
  {
    if Triggered(keys1, inputKey, mods, platform) {
      var i :| 0 <= i < |keys1| && ChordMatches(keys1[i], inputKey, mods, platform);
      assert keys1[i] in keys2;
    }
    if Triggered(keys2, inputKey, mods, platform) {
      var i :| 0 <= i < |keys2| && ChordMatches(keys2[i], inputKey, mods, platform);
      assert keys2[i] in keys1;
    }
  }

  /** An empty chord list never fires. */
  lemma EmptyChordListNeverTriggers(inputKey: string, mods: Modifiers, platform: Platform)
    ensures !Triggered([], inputKey, mods, platform)
  {
  }

  /** Shift is never compared. */
  lemma ShiftIgnored(keys: seq<string>, inputKey: string, mods: Modifiers, platform: Platform)
    ensures Triggered(keys, inputKey, mods, platform)
            == Triggered(keys, inputKey, mods.(shift := !mods.shift), platform)
  {
    assert Held(mods) == Held(mods.(shift := !mods.shift));
  }

  /** CmdCtrl names logo on macOS and ctrl elsewhere, never both. */
  lemma CmdCtrlResolvesToOne(platform: Platform)
    ensures Implied(["cmdctrl"], platform)
            == if platform == MacOs then ModifierSet(false, false, true) else ModifierSet(false, true, false)
  {
  }

  /** The chord's tokens with one extra modifier token in front. */
  lemma {:induction false} PartsWithPrefix(tok: string, chord: string)
    requires '+' !in tok
    ensures Parts(tok + "+" + chord) == [Lower(Trim(tok))] + Parts(chord)
  {
    SplitPrefix(tok, '+', chord);
    assert tok + "+" + chord == tok + ['+'] + chord;
  }

  /** An unknown token adds no modifier. */
  lemma ImpliedIgnoresUnknown(t: string, tokens: seq<string>, platform: Platform)
    requires t != "alt" && t != "ctrl" && t != "logo" && t != "cmdctrl"
    ensures Implied([t] + tokens, platform) == Implied(tokens, platform)
  {
    assert forall m :: m in [t] + tokens <==> m == t || m in tokens;
  }

  /** A modifier token the resolver does not know changes nothing. */
  lemma UnknownModifierIgnored(tok: string, chord: string, inputKey: string,
                               mods: Modifiers, platform: Platform)
    requires '+' !in tok
    requires var t := Lower(Trim(tok)); t != "alt" && t != "ctrl" && t != "logo" && t != "cmdctrl"
    ensures ChordMatches(tok + "+" + chord, inputKey, mods, platform)
            == ChordMatches(chord, inputKey, mods, platform)
  {
    PartsWithPrefix(tok, chord);
    var p := Parts(chord);
    var q := Parts(tok + "+" + chord);
    assert KeyToken(tok + "+" + chord) == KeyToken(chord) by {
      assert q[|q| - 1] == p[|p| - 1];
    }
    var t := Lower(Trim(tok));
    assert ModifierTokens(tok + "+" + chord) == [t] + ModifierTokens(chord) by {
      assert q[..|q| - 1] == [t] + p[..|p| - 1];
    }
    ImpliedIgnoresUnknown(t, ModifierTokens(chord), platform);
  }

  /** The key token of a chord never contains the separator. */
  lemma KeyTokenHasNoPlus(chord: string)
    ensures '+' !in KeyToken(chord)
  {
    var pieces := Split(chord, '+');
    var n := |pieces| - 1;
    SplitPiecesLackSeparator(chord, '+');
    NormaliseAt(pieces, n);
    TrimKeepsInterior(pieces[n]);
    var t := Trim(pieces[n]);
    LowerMapsAsciiOnly(t);
    var l := Lower(t);
    forall k | 0 <= k < |l| ensures l[k] != '+' {
      assert t[k] in t;
    }
  }

  /** The raw "+" key can never be matched; it is reachable only through
      CharToInputKey, which renames it to "add". */
  lemma PlusKeyNeedsRenaming(keys: seq<string>, mods: Modifiers, platform: Platform)
    ensures !Triggered(keys, "+", mods, platform)
    ensures CharToInputKey("+") == "add"
  {
    forall i | 0 <= i < |keys| ensures KeyToken(keys[i]) != "+" {
      KeyTokenHasNoPlus(keys[i]);
      assert '+' in "+";
    }
  }

  /** Only the chord side is normalised: an input key holding an ASCII capital
      never fires, whatever the chords. */
  lemma UppercaseInputNeverTriggers(keys: seq<string>, inputKey: string, k: nat,
                                    mods: Modifiers, platform: Platform)
    requires k < |inputKey| && IsAsciiUpper(inputKey[k])
    ensures !Triggered(keys, inputKey, mods, platform)
  {
    forall i | 0 <= i < |keys| ensures KeyToken(keys[i]) != inputKey {
      var pieces := Split(keys[i], '+');
      NormaliseAt(pieces, |pieces| - 1);
      LowerMapsAsciiOnly(Trim(pieces[|pieces| - 1]));
    }
  }

  /** Trimming a word with no blanks leaves it alone. */
  lemma TrimWord(w: string)
    requires forall i :: 0 <= i < |w| ==> !IsWhitespace(w[i])
    ensures Trim(w) == w
  {
  }

  /** "Ctrl+S" splits into "Ctrl" and "S". */
  lemma SplitCtrlS()
    ensures Split("Ctrl+S", '+') == ["Ctrl", "S"]
    ensures Split("S", '+') == ["S"]
  {
    SplitNoSeparator("S", '+');
    SplitPrefix("Ctrl", '+', "S");
    assert "Ctrl+S" == "Ctrl" + ['+'] + "S";
  }

  /** The tokens of "Ctrl+S" and of "S". */
  lemma CtrlSParts()
    ensures Parts("Ctrl+S") == ["ctrl", "s"]
    ensures Parts("S") == ["s"]
  {
    SplitCtrlS();
    TrimWord("S");
    TrimWord("Ctrl");
    assert Lower("S") == "s";
    assert Lower("Ctrl") == "ctrl";
  }

  /** Exact-set matching, on the chord "Ctrl+S": held {ctrl} fires it, held
      {ctrl, alt} does not, plain "S" does not fire under ctrl, and the input
      key is compared as given. */
  lemma CtrlSMatchesExactly(platform: Platform)
    ensures ChordMatches("Ctrl+S", "s", Modifiers(false, true, false, false), platform)
    ensures !ChordMatches("Ctrl+S", "s", Modifiers(false, true, true, false), platform)
    ensures !ChordMatches("S", "s", Modifiers(false, true, false, false), platform)
    ensures !ChordMatches("S", "S", Modifiers(false, false, false, false), platform)
  {
    CtrlSParts();
    assert ModifierTokens("Ctrl+S") == ["ctrl"];
    assert ModifierTokens("S") == [];
  }

  /** A user binding wins over the default, even an empty one. */
  lemma UserBindingOverridesDefault(user: map<string, seq<string>>, action: string)
    requires action in user
    ensures ChordsFor(Some(user), action) == user[action]
  {
  }

  /** An action the user table leaves out falls back to the default chords. */
  lemma MissingUserBindingFallsBack(user: Option<map<string, seq<string>>>, action: string)
    requires user.None? || action !in user.value
    ensures action in DefaultBindings ==> ChordsFor(user, action) == DefaultBindings[action]
    ensures action !in DefaultBindings ==> ChordsFor(user, action) == []
  {
  }

  /** Vertical panning has no default chord, so it never fires unbound. */
  lemma PanVertNeedsUserBinding(user: Option<map<string, seq<string>>>, inputKey: string,
                                mods: Modifiers, platform: Platform)
    requires user.None? || "pan_vert" !in user.value
    ensures !Triggered(ChordsFor(user, "pan_vert"), inputKey, mods, platform)
  {
    assert "pan_vert" !in DefaultBindings;
  }

  /** A pattern that does not occur is not replaced. */
  lemma {:induction false} ReplaceAbsent(s: string, from: string, to: string)
    requires |from| > 0 && !Occurs(from, s)
    ensures Replace(s, from, to) == s
    decreases |s|
  {
    if |s| >= |from| {
      ReplaceAbsent(s[1..], from, to);
      assert [s[0]] + s[1..] == s;
    }
  }

  /** One step of `Replace` at a position where the pattern starts. */
  lemma ReplaceStepMatch(s: string, from: string, to: string)
    requires 0 < |from| <= |s| && s[..|from|] == from
    ensures Replace(s, from, to) == to + Replace(s[|from|..], from, to)
  {
  }

  /** The pattern starts at position `k` of `s`. */
  predicate StartsAt(from: string, s: string, k: nat) {
    k + |from| <= |s| && s[k..k + |from|] == from
  }

  /** One step of `Replace` at a position where the pattern does not start. */
  lemma ReplaceStepMismatch(s: string, from: string, to: string)
    requires 0 < |from| <= |s| && !StartsAt(from, s, 0)
    ensures Replace(s, from, to) == [s[0]] + Replace(s[1..], from, to)
  {
    assert s[0..|from|] == s[..|from|];
  }

  /** The first occurrence of a non-empty pattern is replaced, and replacing
      goes on after it: the text before it is kept as it is. */
  lemma {:induction false} ReplaceAtFirstOccurrence(u: string, from: string, v: string, to: string)
    requires |from| > 0
    requires forall k: nat :: k < |u| ==> !StartsAt(from, u + from + v, k)
    ensures Replace(u + from + v, from, to) == u + to + Replace(v, from, to)
    decreases |u|
  {
    if |u| == 0 {
      ReplaceAtStart(u, from, v, to);
    } else {
      ReplacePastChar(u, from, v, to);
      ReplaceAtFirstOccurrence(u[1..], from, v, to);
      ConsBack(u, to, Replace(v, from, to));
    }
  }

  /** Putting the first char of `u` back in front of the rest of it. */
  lemma ConsBack(u: string, t: string, r: string)
    requires |u| > 0
    ensures [u[0]] + (u[1..] + t + r) == u + t + r
  {
    assert u == [u[0]] + u[1..];
  }

  /** With nothing before it, the pattern is replaced at once. */
  lemma ReplaceAtStart(u: string, from: string, v: string, to: string)
    requires |from| > 0 && |u| == 0
    ensures Replace(u + from + v, from, to) == u + to + Replace(v, from, to)
  {
    assert u + from + v == from + v && u + to == to;
    ReplaceStepMatch(from + v, from, to);
    assert (from + v)[|from|..] == v;
  }

  /** No occurrence starts at the first char of `u`, so it is kept, and none
      starts inside the rest of `u` either. */
  lemma ReplacePastChar(u: string, from: string, v: string, to: string)
    requires |from| > 0 && |u| > 0
    requires forall k: nat :: k < |u| ==> !StartsAt(from, u + from + v, k)
    ensures forall k: nat :: k < |u[1..]| ==> !StartsAt(from, u[1..] + from + v, k)
    ensures Replace(u + from + v, from, to) == [u[0]] + Replace(u[1..] + from + v, from, to)
  {
    var s := u + from + v;
    var t := u[1..] + from + v;
    assert !StartsAt(from, s, 0);
    ReplaceStepMismatch(s, from, to);
    assert s[1..] == t;
    forall k: nat | k < |u[1..]|
      ensures !StartsAt(from, t, k)
    {
      assert !StartsAt(from, s, k + 1);
      assert t[k..k + |from|] == s[k + 1..k + 1 + |from|];
    }
  }

  /** A pattern whose first char is absent from `u` cannot start inside `u`. */
  lemma NoStartBeforeFirstChar(u: string, from: string, v: string)
    requires |from| > 0 && from[0] !in u
    ensures forall k: nat :: k < |u| ==> !StartsAt(from, u + from + v, k)
  {
    var s := u + from + v;
    forall k: nat | k < |u|
      ensures !StartsAt(from, s, k)
    {
      assert s[k] == u[k];
    }
  }

  /** A `$` just before the placeholder does not hide it: "$${img}" becomes "$x". */
  lemma DollarBeforePlaceholder()
    ensures Replace("$${img}", "${img}", "x") == "$x"
  {
    var s := "$${img}";
    assert s[0..6][1] != "${img}"[1];
    ReplaceAtFirstOccurrence("$", "${img}", "", "x");
    assert "$" + "${img}" + "" == s;
    assert Replace("", "${img}", "x") == "";
    assert "$" + "x" + "" == "$x";
  }

  /** "${folder}" occurs in neither the argument nor the substituted path. */
  lemma FolderAbsentFromExample()
    ensures !Occurs("${folder}", "open a.png")
    ensures !Occurs("${folder}", "open ${img}")
  {
    var p := "${folder}";
    var a := "open a.png";
    assert |p| == 9 && |a| == 10;
    assert a[..9][0] != p[0] && a[1..][..9][0] != p[0];
    assert !Occurs(p, a[1..][1..]);
    var b := "open ${img}";
    assert |b| == 11;
    assert b[..9][0] != p[0] && b[1..][..9][0] != p[0] && b[1..][1..][..9][0] != p[0];
    assert !Occurs(p, b[1..][1..][1..]);
  }

  /** "${img}" in "open ${img}" becomes the image path. */
  lemma ImgReplacedInExample()
    ensures Replace("open ${img}", "${img}", "a.png") == "open a.png"
  {
    assert Replace("", "${img}", "a.png") == "";
    NoStartBeforeFirstChar("open ", "${img}", "");
    ReplaceAtFirstOccurrence("open ", "${img}", "", "a.png");
    assert "open " + "${img}" + "" == "open ${img}";
    assert "open " + "a.png" + "" == "open a.png";
  }

  /** A command argument "open ${img}" becomes "open a.png", whichever order
      the placeholder map is iterated in. */
  lemma SubstituteImgExample(imgFirst: bool)
    ensures SubstituteAll("open ${img}", CommandVariables("a.png", "d", imgFirst)) == "open a.png"
  {
    FolderAbsentFromExample();
    ImgReplacedInExample();
    ReplaceAbsent("open a.png", "${folder}", "d");
    ReplaceAbsent("open ${img}", "${folder}", "d");
    SubstituteTwo("open ${img}", CommandVariables("a.png", "d", imgFirst));
  }

  /** With two placeholders the first listed is replaced first. */
  lemma SubstituteTwo(s: string, varMap: seq<(string, string)>)
    requires |varMap| == 2
    ensures SubstituteAll(s, varMap)
            == Replace(Replace(s, varMap[0].0, varMap[0].1), varMap[1].0, varMap[1].1)
  {
    var first := varMap[..1];
    assert varMap[..|varMap| - 1] == first;
    assert first[..|first| - 1] == [] && first[|first| - 1] == varMap[0];
    assert SubstituteAll(s, first) == Replace(s, varMap[0].0, varMap[0].1);
  }

  /** An empty pattern inserts the replacement at every char boundary. */
  lemma {:induction false} ReplaceEmptyPattern(s: string, to: string)
    ensures |Replace(s, "", to)| == |s| + (|s| + 1) * |to|
    decreases |s|
  {
    if |s| > 0 {
      ReplaceEmptyPattern(s[1..], to);
    }
  }

  /** Where the pieces of an empty-pattern replacement sit: the k-th copy of
      `to` starts at `k * (|to| + 1)`, and the k-th character of `s` follows it. */
  lemma {:induction false} ReplaceEmptyPatternAt(s: string, to: string, k: nat)
    requires k <= |s|
    ensures var r := Replace(s, "", to);
            var at := k * (|to| + 1);
            && at + |to| <= |r|
            && r[at .. at + |to|] == to
            && (k < |s| ==> at + |to| < |r| && r[at + |to|] == s[k])
    decreases |s|
  {
    ReplaceEmptyPattern(s, to);
    if k > 0 {
      var n := |to| + 1;
      var r := Replace(s, "", to);
      var rest := Replace(s[1..], "", to);
      ReplaceEmptyPatternAt(s[1..], to, k - 1);
      assert r == to + [s[0]] + rest;
      var at := k * n;
      assert at == (k - 1) * n + n;
      assert r[at .. at + |to|] == rest[(k - 1) * n .. (k - 1) * n + |to|];
      if k < |s| {
        assert r[at + |to|] == rest[(k - 1) * n + |to|];
        assert s[1..][k - 1] == s[k];
      }
    }
  }

  /** An argument that mentions no placeholder is passed through unchanged. */
  lemma {:induction false} SubstituteWithoutPlaceholders(s: string, varMap: seq<(string, string)>)
    requires forall j :: 0 <= j < |varMap| ==> |varMap[j].0| > 0 && !Occurs(varMap[j].0, s)
    ensures SubstituteAll(s, varMap) == s
  {
    if |varMap| > 0 {
      SubstituteWithoutPlaceholders(s, varMap[..|varMap| - 1]);
      var last := varMap[|varMap| - 1];
      ReplaceAbsent(s, last.0, last.1);
    }
  }

  /** Every command whose chords fire is started. */
  lemma {:induction false} SelectedComplete(commands: seq<UserCommand>, inputKey: string,
                                            mods: Modifiers, platform: Platform,
                                            varMap: seq<(string, string)>, i: nat)
    requires i < |commands| && Triggered(commands[i].input, inputKey, mods, platform)
    ensures Invoke(commands[i], varMap) in Selected(commands, inputKey, mods, platform, varMap)
  {
    var n := |commands| - 1;
    var init := commands[..n];
    if i < n {
      assert init[i] == commands[i];
      SelectedComplete(init, inputKey, mods, platform, varMap, i);
    }
  }

  /** Every started invocation comes from a command whose chords fire. */
  lemma {:induction false} SelectedSound(commands: seq<UserCommand>, inputKey: string,
                                         mods: Modifiers, platform: Platform,
                                         varMap: seq<(string, string)>, inv: Invocation)
    returns (i: nat)
    requires inv in Selected(commands, inputKey, mods, platform, varMap)
    ensures i < |commands| && Triggered(commands[i].input, inputKey, mods, platform)
    ensures inv == Invoke(commands[i], varMap)
  {
    var n := |commands| - 1;
    var init := commands[..n];
    if inv in Selected(init, inputKey, mods, platform, varMap) {
      i := SelectedSound(init, inputKey, mods, platform, varMap, inv);
      assert init[i] == commands[i];
    } else {
      i := n;
    }
  }

  /** At most one invocation per command, so never more invocations than commands. */
  lemma {:induction false} SelectedAtMostOnce(commands: seq<UserCommand>, inputKey: string,
                                              mods: Modifiers, platform: Platform,
                                              varMap: seq<(string, string)>)
    ensures |Selected(commands, inputKey, mods, platform, varMap)| <= |commands|
    ensures |commands| == 1 ==>
              Selected(commands, inputKey, mods, platform, varMap)
              == if Triggered(commands[0].input, inputKey, mods, platform) then [Invoke(commands[0], varMap)] else []
  {
    if |commands| > 0 {
      SelectedAtMostOnce(commands[..|commands| - 1], inputKey, mods, platform, varMap);
    }
  }

  /** Selection goes command by command, in order: the invocations for the
      commands `a + b` are those for `a` followed by those for `b`. */
  lemma {:induction false} SelectedAppend(a: seq<UserCommand>, b: seq<UserCommand>, inputKey: string,
                                          mods: Modifiers, platform: Platform,
                                          varMap: seq<(string, string)>)
    ensures Selected(a + b, inputKey, mods, platform, varMap)
            == Selected(a, inputKey, mods, platform, varMap) + Selected(b, inputKey, mods, platform, varMap)
  {
    if |b| == 0 {
      assert a + b == a;
    } else {
      var init := b[..|b| - 1];
      SelectedAppend(a, init, inputKey, mods, platform, varMap);
      assert (a + b)[..|a + b| - 1] == a + init;
      assert (a + b)[|a + b| - 1] == b[|b| - 1];
    }
  }

  /** An invocation is started exactly when some command whose chords fire
      produces it, and no more invocations than commands are started. */
  lemma SelectedExactlyTriggered(commands: seq<UserCommand>, inputKey: string,
                                 mods: Modifiers, platform: Platform,
                                 varMap: seq<(string, string)>, inv: Invocation)
    ensures inv in Selected(commands, inputKey, mods, platform, varMap)
            <==> exists i :: 0 <= i < |commands| && Triggered(commands[i].input, inputKey, mods, platform)
                                                 && inv == Invoke(commands[i], varMap)
    ensures |Selected(commands, inputKey, mods, platform, varMap)| <= |commands|
  {
    if inv in Selected(commands, inputKey, mods, platform, varMap) {
      var i := SelectedSound(commands, inputKey, mods, platform, varMap, inv);
    }
    if exists i :: 0 <= i < |commands| && Triggered(commands[i].input, inputKey, mods, platform)
                                       && inv == Invoke(commands[i], varMap) {
      var i :| 0 <= i < |commands| && Triggered(commands[i].input, inputKey, mods, platform)
                                   && inv == Invoke(commands[i], varMap);
      SelectedComplete(commands, inputKey, mods, platform, varMap, i);
    }
    SelectedAtMostOnce(commands, inputKey, mods, platform, varMap);
  }
}
