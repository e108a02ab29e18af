/** What the release mapper does to a legacy PHP-FPM pool (migrations/release/mapper.ts:300-440, 733-769):
    it filters the operator's directives and splits the worker budget over the PHP domains. */
module LegacyPool {
  import opened Common
  import SqlText

  // -------------------------------------------------------------- text helpers

  /** JavaScript white space and line terminators, as used by trim() and \s. */
  predicate IsSpace(c: char) {
    || ('\t' <= c <= '\r') || c == ' ' || c == '\U{00a0}' || c == '\U{1680}'
    || ('\U{2000}' <= c <= '\U{200a}') || c == '\U{2028}' || c == '\U{2029}'
    || c == '\U{202f}' || c == '\U{205f}' || c == '\U{3000}' || c == '\U{feff}'
  }

  predicate LineTerminator(c: char) {
    c == '\n' || c == '\r' || c == '\U{2028}' || c == '\U{2029}'
  }

  function TrimStart(s: string): string {
    if s != "" && IsSpace(s[0]) then TrimStart(s[1..]) else s
  }

  function TrimEnd(s: string): string {
    if s != "" && IsSpace(s[|s| - 1]) then TrimEnd(s[..|s| - 1]) else s
  }

  function Trim(s: string): string { TrimEnd(TrimStart(s)) }

  /** text.split('\n') */
  function Lines(text: string): (lines: seq<string>)
    ensures lines != []
    decreases |text|
  {
    if text == "" then [""]
    else if text[0] == '\n' then [""] + Lines(text[1..])
    else
      var rest := Lines(text[1..]);
      [[text[0]] + rest[0]] + rest[1..]
  }

  /** lines.join('\n') */
  function JoinLines(lines: seq<string>): string {
    if lines == [] then "" else if |lines| == 1 then lines[0] else lines[0] + "\n" + JoinLines(lines[1..])
  }

  /** Buffer.byteLength(s, 'utf8') */
  function Utf8Bytes(s: string): nat {
    if s == "" then 0
    else Utf8Bytes(s[1..])
         + (if s[0] < '\U{0080}' then 1 else if s[0] < '\U{0800}' then 2 else if s[0] < '\U{10000}' then 3 else 4)
  }

  function LowerChar(c: char): (r: char)
    ensures 'A' <= c <= 'Z' || r == c
    ensures !('A' <= r <= 'Z')
  {
    if 'A' <= c <= 'Z' then c - 'A' + 'a' else c
  }

  /** key.toLowerCase() for the ASCII keys a directive can have. */
  function Lower(s: string): (r: string)
    ensures |r| == |s|
  {
    seq(|s|, i requires 0 <= i < |s| => LowerChar(s[i]))
  }

  // ---------------------------------------------------------------- directives

  datatype Parsed = NotADirective | Directive(key: string, value: string)

  predicate KeyChar(c: char) {
    IsLetter(c) || '0' <= c <= '9' || c == '_' || c == '.' || c == '-'
  }

  /** Length of the longest prefix of key characters. */
  function KeyRun(s: string): (n: nat)
    ensures n <= |s| && (forall i | 0 <= i < n :: KeyChar(s[i])) && (n < |s| ==> !KeyChar(s[n]))
  {
    if s == "" || !KeyChar(s[0]) then 0 else 1 + KeyRun(s[1..])
  }

  /** Length of an optional `[name]` selector, or 0 when there is none. */
  function SelectorLength(s: string): (n: nat)
    ensures n <= |s|
  {
    if s == "" || s[0] != '[' then 0
    else
      var inner := KeyRun(s[1..]);
      if 1 <= inner <= 81 && IsLetter(s[1]) && inner + 1 < |s| && s[inner + 1] == ']' then inner + 2 else 0
  }

  /** PHP_POOL_DIRECTIVE: key, optional selector, `=`, value without line terminators. */
  function ParseDirective(line: string): Parsed {
    if line == "" || !IsLetter(line[0]) then NotADirective
    else
      var run := KeyRun(line);
      var keyLength := run + SelectorLength(line[run..]);
      var rest := TrimStart(line[keyLength..]);
      if rest == "" || rest[0] != '=' then NotADirective
      else
        var value := TrimStart(rest[1..]);
        if exists c <- value :: LineTerminator(c) then NotADirective
        else Directive(line[..keyLength], value)
  }

  const MAX_CHILDREN := "pm.max_children"

  /** The bracketed name of a php_value, php_flag, php_admin_value or php_admin_flag directive. */
  function PhpSelector(key: string): Option<string> {
    if key == "" || key[|key| - 1] != ']' then None
    else if "php_value[" <= key then Between(key, 10)
    else if "php_flag[" <= key then Between(key, 9)
    else if "php_admin_value[" <= key then Between(key, 16)
    else if "php_admin_flag[" <= key then Between(key, 15)
    else None
  }

  function Between(key: string, start: nat): Option<string> {
    if start < |key| then Some(key[start..|key| - 1]) else None
  }

  /** isAgentOwnedPhpValue, on the lower-cased key. */
  predicate AgentOwned(lowerKey: string) {
    var name := PhpSelector(lowerKey);
    name.Some? && (name.value == "error_log" || name.value == "sys_temp_dir" || name.value == "upload_tmp_dir"
                   || name.value == "session.save_path" || name.value == "open_basedir")
  }

  /** PHP_POOL_IDENTITY_OR_RESOURCE_DIRECTIVE as written: its inner `\.` alternatives still have to meet
      the outer end anchor, so dotted members of the two families are caught by the allowlist instead. */
  predicate IdentityOrResource(key: string) {
    var k := Lower(key);
    k == "listen" || k == "listen." || k == "user" || k == "group" || k == "pm" || k == "pm." || k == "prefix"
    || k == "include" || k == "chroot" || k == "chdir" || k == "rlimit_core" || k == "rlimit_files"
    || k == "access.log" || k == "slowlog" || k == "request_slowlog_timeout"
  }

  /** PHP_POOL_ALLOWED_DIRECTIVE */
  predicate Allowed(key: string) {
    || (PhpSelector(key).Some? && 1 <= |PhpSelector(key).value| <= 80 && forall c <- PhpSelector(key).value :: KeyChar(c))
    || key == "env[PATH]" || key == "env[HOME]" || key == "env[TMP]" || key == "env[TMPDIR]" || key == "env[TEMP]"
    || key == "clear_env" || key == "catch_workers_output" || key == "decorate_workers_output"
    || key == "request_terminate_timeout"
  }

  const MAX_TIMEOUT_SECONDS: nat := 31 * 24 * 60 * 60

  /** /^(\d{1,7})([smhdw]?)$/ read as seconds. */
  function TimeoutSeconds(value: string): Option<nat> {
    if value == "" then None
    else
      var unit := value[|value| - 1];
      var factor: nat := match unit case 's' => 1 case 'm' => 60 case 'h' => 3600 case 'd' => 86400 case 'w' => 604800 case _ => 0;
      var digits := if factor == 0 then value else value[..|value| - 1];
      if !(1 <= |digits| <= 7) || SqlText.ParseNat(digits) == None then None
      else Some(SqlText.ParseNat(digits).value * (if factor == 0 then 1 else factor))
  }

  /** poolBooleanValueIsSafe */
  predicate ValueIsSafe(key: string, value: string) {
    var k, v := Lower(key), Lower(Trim(value));
    if k == "clear_env" then v == "yes"
    else if k == "catch_workers_output" || k == "decorate_workers_output" then v == "yes" || v == "no"
    else if k == "request_terminate_timeout" then
      TimeoutSeconds(v).Some? && TimeoutSeconds(v).value <= MAX_TIMEOUT_SECONDS
    else true
  }

  predicate ControlCharacter(c: char) { c < ' ' || c == '\U{007f}' }

  datatype PoolError = SecretOrUnsafe | DirectiveUnsafe | MaxChildrenInvalid | IdentityOverride

  /** What happens to one line of the legacy pool text. */
  datatype Verdict = Retain | Limit(children: nat) | DropOwned | Refuse(error: PoolError)

  const MAX_BYTES: nat := 16 * 1024
  const MAX_LINE_BYTES: nat := 2 * 1024

  predicate Comment(line: string) { line == "" || line[0] == ';' || line[0] == '#' }

  function JudgeLine(rawLine: string): Verdict {
    if '\r' in rawLine || Utf8Bytes(rawLine) > MAX_LINE_BYTES then Refuse(DirectiveUnsafe)
    else
      var line := Trim(rawLine);
      if Comment(line) then Retain
      else match ParseDirective(line)
        case NotADirective => Refuse(DirectiveUnsafe)
        case Directive(key, value) =>
          if Lower(key) == MAX_CHILDREN then
            var limit := SqlText.ParseNat(Trim(value));
            if limit == None || !(1 <= limit.value <= 1024) then Refuse(MaxChildrenInvalid) else Limit(limit.value)
          else if AgentOwned(Lower(key)) then DropOwned
          else if IdentityOrResource(key) then Refuse(IdentityOverride)
          else if !Allowed(key) || !ValueIsSafe(key, value)
                  || exists c <- value :: c != '\t' && ControlCharacter(c) then Refuse(DirectiveUnsafe)
          else Retain
  }

  datatype SafePool = SafePool(nonResource: Option<string>, configured: Option<nat>) | Blocked(error: PoolError)

  function RetainedBy(judge: string -> Verdict): string -> bool {
    line => judge(line).Retain?
  }

  /** The lines that survive, in order. */
  function Retained(lines: seq<string>): seq<string> {
    Filter(lines, RetainedBy(JudgeLine))
  }

  predicate AllLinesPass(lines: seq<string>) {
    forall line <- lines :: !JudgeLine(line).Refuse?
  }

  /** The text as a whole: size, NUL and the credential patterns, which stay abstract in `suspicious`. */
  predicate TextPasses(text: string, suspicious: string -> bool) {
    Utf8Bytes(text) <= MAX_BYTES && '\0' !in text && !suspicious(text)
  }

  /** Among the first n lines, the worker limit that stays configured is the last one given. */
  ghost predicate LastLimit(lines: seq<string>, n: nat, judge: string -> Verdict, configured: Option<nat>)
    requires n <= |lines|
  {
    match configured
    case None => forall i | 0 <= i < n :: !judge(lines[i]).Limit?
    case Some(limit) => exists i | 0 <= i < n ::
      judge(lines[i]) == Limit(limit) && forall j | i < j < n :: !judge(lines[j]).Limit?
  }

  /** The reported error is that of the first refused line. */
  ghost predicate FirstRefusal(lines: seq<string>, judge: string -> Verdict, error: PoolError) {
    exists i | 0 <= i < |lines| :: judge(lines[i]) == Refuse(error) && forall j | 0 <= j < i :: !judge(lines[j]).Refuse?
  }

  /** The loop of safePoolCustomOrBlock, over any judgement of a single line. */
  method CollectLines(lines: seq<string>, judge: string -> Verdict)
    returns (error: Option<PoolError>, retained: seq<string>, configured: Option<nat>)
    ensures error == None <==> forall line <- lines :: !judge(line).Refuse?
    ensures error == None ==> retained == Filter(lines, RetainedBy(judge))
    ensures error == None ==> LastLimit(lines, |lines|, judge, configured)
    ensures error.Some? ==> FirstRefusal(lines, judge, error.value)
  {
    retained, configured := [], None;
    for i := 0 to |lines|
      invariant retained == Filter(lines[..i], RetainedBy(judge))
      invariant forall j | 0 <= j < i :: !judge(lines[j]).Refuse?
      invariant LastLimit(lines, i, judge, configured)
    {
      assert lines[..i + 1] == lines[..i] + [lines[i]];
      FilterAppend(lines[..i], [lines[i]], RetainedBy(judge));
      match judge(lines[i]) {
        case Refuse(e) => return Some(e), [], None;
        case Limit(children) => configured := Some(children);
        case DropOwned =>
        case Retain => retained := retained + [lines[i]];
      }
    }
    assert lines[..|lines|] == lines;
    error := None;
  }

  /** safePoolCustomOrBlock */
  method SafePoolCustom(text: Option<string>, suspicious: string -> bool) returns (pool: SafePool)
    ensures text == None ==> pool == SafePool(None, None)
    ensures text.Some? ==> (pool.SafePool? <==> TextPasses(text.value, suspicious) && AllLinesPass(Lines(text.value)))
    ensures text.Some? && pool.SafePool? ==> pool.nonResource == Surviving(text.value)
    ensures text.Some? && pool.SafePool? ==> LastLimit(Lines(text.value), |Lines(text.value)|, JudgeLine, pool.configured)
    ensures text.Some? && pool.Blocked? ==>
              if TextPasses(text.value, suspicious) then FirstRefusal(Lines(text.value), JudgeLine, pool.error)
              else pool.error == SecretOrUnsafe
  {
    if text == None { return SafePool(None, None); }
    if Utf8Bytes(text.value) > MAX_BYTES || '\0' in text.value || suspicious(text.value) { return Blocked(SecretOrUnsafe); }
    var error, retained, configured := CollectLines(Lines(text.value), JudgeLine);
    if error.Some? { return Blocked(error.value); }
    var kept := Trim(JoinLines(retained));
    pool := SafePool(if kept == "" then None else Some(kept), configured);
  }

  /** The part of an accepted pool text that is not a worker limit. */
  function Surviving(text: string): Option<string> {
    var kept := Trim(JoinLines(Retained(Lines(text))));
    if kept == "" then None else Some(kept)
  }

  function TextOrEmpty(text: Option<string>): string {
    if text == None then "" else text.value
  }

  function LimitLine(n: nat): string { MAX_CHILDREN + " = " + SqlText.DigitsOf(n) }

  /** poolCustomWithAllocation */
  function PoolText(custom: Option<string>, maxChildren: nat): string {
    var kept := Trim(TextOrEmpty(custom));
    if kept == "" then LimitLine(maxChildren) else kept + "\n" + LimitLine(maxChildren)
  }

  // -------------------------------------------------------- effective directives

  /** What the mapper's line pattern finds in one line. */
  function LineDirectives(line: string): seq<Parsed> {
    if Comment(Trim(line)) then [] else [ParseDirective(Trim(line))]
  }

  function Flatten(lines: seq<string>, f: string -> seq<Parsed>): seq<Parsed> {
    if lines == [] then [] else f(lines[0]) + Flatten(lines[1..], f)
  }

  /** The directives the line pattern finds in a pool text, in order. */
  function Effective(text: string): seq<Parsed> {
    Flatten(Lines(text), LineDirectives)
  }

  predicate NamesLimit(d: Parsed) { d.Directive? && Lower(d.key) == MAX_CHILDREN }
  predicate NamesOwned(d: Parsed) { d.Directive? && AgentOwned(Lower(d.key)) }
  predicate KeptDirective(d: Parsed) { !NamesLimit(d) && !NamesOwned(d) }

  lemma {:induction false} FlattenAppend(a: seq<string>, b: seq<string>, f: string -> seq<Parsed>)
    ensures Flatten(a + b, f) == Flatten(a, f) + Flatten(b, f)
  {
    if a == [] {
      assert a + b == b;
    } else {
      assert (a + b)[1..] == a[1..] + b;
      FlattenAppend(a[1..], b, f);
    }
  }

  lemma {:induction false} LinesOfJoin(lines: seq<string>)
    requires lines != [] && forall line <- lines :: '\n' !in line
    ensures Lines(JoinLines(lines)) == lines
  {
    if |lines| == 1 {
      LinesPrefix(lines[0], "");
    } else {
      LinesOfJoin(lines[1..]);
      LinesPrefix(lines[0], JoinLines(lines[1..]));
      assert lines == [lines[0]] + lines[1..];
    }
  }

  lemma {:induction false} LinesPrefix(line: string, rest: string)
    requires '\n' !in line
    ensures Lines(line + "\n" + rest) == [line] + Lines(rest)
    ensures Lines(line) == [line]
  {
    if line == "" {
      assert (line + "\n" + rest)[1..] == rest;
    } else {
      LinesPrefix(line[1..], rest);
      assert (line + "\n" + rest)[1..] == line[1..] + "\n" + rest;
      assert [line[0]] + line[1..] == line;
    }
  }

  /** The lines of a text that gains one character other than a line break at its front. */
  function Fronted(d: char, lines: seq<string>): seq<string>
    requires lines != []
  {
    [[d] + lines[0]] + lines[1..]
  }

  lemma {:induction false} LinesFromFront(d: char, rest: string)
    ensures Lines([d] + rest) == if d == '\n' then [""] + Lines(rest) else Fronted(d, Lines(rest))
  {
    assert ([d] + rest)[1..] == rest;
  }

  lemma {:induction false} FrontedAppend(d: char, lines: seq<string>, tail: seq<string>)
    requires lines != []
    ensures Fronted(d, lines + tail) == Fronted(d, lines) + tail
  {
    assert (lines + tail)[1..] == lines[1..] + tail;
  }

  lemma {:induction false} LinesStep(d: char, rest: string, longer: string, tail: seq<string>)
    requires Lines(longer) == Lines(rest) + tail
    ensures Lines([d] + longer) == Lines([d] + rest) + tail
  {
    LinesFromFront(d, rest);
    LinesFromFront(d, longer);
    FrontedAppend(d, Lines(rest), tail);
    assert [""] + (Lines(rest) + tail) == ([""] + Lines(rest)) + tail;
  }

  lemma {:induction false} LinesAppend(a: string, b: string)
    ensures Lines(a + "\n" + b) == Lines(a) + Lines(b)
    decreases |a|
  {
    if a == "" {
      assert a + "\n" + b == ['\n'] + b;
      LinesFromFront('\n', b);
    } else {
      LinesAppend(a[1..], b);
      LinesStep(a[0], a[1..], a[1..] + "\n" + b, Lines(b));
      assert a == [a[0]] + a[1..];
      assert a + "\n" + b == [a[0]] + (a[1..] + "\n" + b);
    }
  }

  lemma {:induction false} LinesHaveNoBreaks(text: string)
    ensures forall line <- Lines(text) :: '\n' !in line
    decreases |text|
  {
    if text != "" {
      LinesHaveNoBreaks(text[1..]);
    }
  }

  // ------------------------------------------------------------- trimming lemmas

  lemma {:induction false} TrimLeadingSpace(c: char, line: string)
    requires IsSpace(c)
    ensures Trim([c] + line) == Trim(line)
  {
    assert ([c] + line)[1..] == line;
  }

  lemma {:induction false} TrimTrailingSpace(c: char, line: string)
    requires IsSpace(c)
    ensures Trim(line + [c]) == Trim(line)
    decreases |line|
  {
    if line == "" {
      assert line + [c] == [c];
      assert TrimStart([c]) == "";
    } else if IsSpace(line[0]) {
      assert (line + [c])[1..] == line[1..] + [c];
      TrimTrailingSpace(c, line[1..]);
    } else {
      assert TrimStart(line + [c]) == line + [c] && TrimStart(line) == line;
      assert (line + [c])[..|line|] == line;
    }
  }

  /** A reading of lines that ignores surrounding white space and empty lines. */
  ghost predicate Blind(f: string -> seq<Parsed>) {
    f("") == [] && forall c, line | IsSpace(c) :: f([c] + line) == f(line) && f(line + [c]) == f(line)
  }

  lemma {:induction false} LineDirectivesAreBlind()
    ensures Blind(LineDirectives)
  {
    forall c, line | IsSpace(c)
      ensures LineDirectives([c] + line) == LineDirectives(line) && LineDirectives(line + [c]) == LineDirectives(line)
    {
      TrimLeadingSpace(c, line);
      TrimTrailingSpace(c, line);
    }
  }

  lemma {:induction false} TrimStartKeeps(text: string, f: string -> seq<Parsed>)
    requires Blind(f)
    ensures Flatten(Lines(TrimStart(text)), f) == Flatten(Lines(text), f)
  {
    if text != "" && IsSpace(text[0]) {
      TrimStartKeeps(text[1..], f);
      var rest := Lines(text[1..]);
      if text[0] == '\n' {
        assert Lines(text)[1..] == rest;
      } else {
        assert Lines(text)[0] == [text[0]] + rest[0] && Lines(text)[1..] == rest[1..];
      }
    }
  }

  /** The lines of a text that grows by one character at its end. */
  function Grown(lines: seq<string>, c: char): seq<string>
    requires lines != []
  {
    if c == '\n' then lines + [""] else lines[..|lines| - 1] + [lines[|lines| - 1] + [c]]
  }

  lemma {:induction false} GrowBehindFirst(d: char, more: seq<string>, c: char)
    requires more != []
    ensures Grown(Fronted(d, more), c) == Fronted(d, Grown(more, c))
  {
    if c != '\n' && |more| == 1 {
      assert [d] + (more[0] + [c]) == ([d] + more[0]) + [c];
    }
  }

  lemma {:induction false} LinesOfLastChar(text: string, c: char)
    ensures Lines(text + [c]) == Grown(Lines(text), c)
    decreases |text|
  {
    if text == "" {
      assert text + [c] == [c] + "";
      LinesFromFront(c, "");
    } else {
      var d, rest := text[0], text[1..];
      assert text == [d] + rest && text + [c] == [d] + (rest + [c]);
      LinesFromFront(d, rest);
      LinesFromFront(d, rest + [c]);
      LinesOfLastChar(rest, c);
      if d == '\n' {
        assert Grown([""] + Lines(rest), c) == [""] + Grown(Lines(rest), c);
      } else {
        GrowBehindFirst(d, Lines(rest), c);
      }
    }
  }

  lemma {:induction false} TrimEndKeeps(text: string, f: string -> seq<Parsed>)
    requires Blind(f)
    ensures Flatten(Lines(TrimEnd(text)), f) == Flatten(Lines(text), f)
    decreases |text|
  {
    if text != "" && IsSpace(text[|text| - 1]) {
      var front, c := text[..|text| - 1], text[|text| - 1];
      TrimEndKeeps(front, f);
      assert text == front + [c];
      LinesOfLastChar(front, c);
      var lines := Lines(front);
      if c == '\n' {
        FlattenAppend(lines, [""], f);
        assert Flatten([""], f) == [];
      } else {
        var init, last := lines[..|lines| - 1], lines[|lines| - 1];
        assert lines == init + [last];
        FlattenAppend(init, [last], f);
        FlattenAppend(init, [last + [c]], f);
        assert Flatten([last], f) == f(last) && Flatten([last + [c]], f) == f(last + [c]);
      }
    }
  }

  lemma {:induction false} TrimKeepsDirectives(text: string)
    ensures Effective(Trim(text)) == Effective(text)
  {
    LineDirectivesAreBlind();
    TrimStartKeeps(text, LineDirectives);
    TrimEndKeeps(TrimStart(text), LineDirectives);
  }

  // ------------------------------------------------------------ directive theorems

  /** How one accepted line contributes: dropped lines are exactly the limits and the agent-owned settings. */
  lemma {:induction false} AcceptedLine(line: string)
    requires !JudgeLine(line).Refuse?
    ensures |LineDirectives(line)| <= 1
    ensures JudgeLine(line).Retain? ==> forall d <- LineDirectives(line) :: d.Directive? && Allowed(d.key) && KeptDirective(d)
    ensures !JudgeLine(line).Retain? ==> forall d <- LineDirectives(line) :: d.Directive? && !KeptDirective(d)
  {
  }

  /** Keeping lines by their verdict is the same as keeping directives by their key. */
  lemma {:induction false} FilterLines(lines: seq<string>, keepLine: string -> bool,
                                       f: string -> seq<Parsed>, keep: Parsed -> bool)
    requires forall line <- lines :: |f(line)| <= 1 && forall d <- f(line) :: keep(d) <==> keepLine(line)
    ensures Flatten(Filter(lines, keepLine), f) == Filter(Flatten(lines, f), keep)
  {
    if lines != [] {
      FilterLines(lines[1..], keepLine, f, keep);
      FilterAppend(f(lines[0]), Flatten(lines[1..], f), keep);
      if keepLine(lines[0]) {
        FilterAll(f(lines[0]), keep);
        assert Filter(lines, keepLine)[1..] == Filter(lines[1..], keepLine);
      } else {
        FilterNone(f(lines[0]), keep);
        assert Filter(lines, keepLine) == Filter(lines[1..], keepLine);
      }
    }
  }

  lemma {:induction false} RetainedDirectives(lines: seq<string>)
    requires AllLinesPass(lines)
    ensures Flatten(Retained(lines), LineDirectives) == Filter(Flatten(lines, LineDirectives), KeptDirective)
  {
    forall line <- lines
      ensures |LineDirectives(line)| <= 1
      ensures forall d <- LineDirectives(line) :: KeptDirective(d) <==> RetainedBy(JudgeLine)(line)
    {
      AcceptedLine(line);
    }
    FilterLines(lines, RetainedBy(JudgeLine), LineDirectives, KeptDirective);
  }

  lemma {:induction false} EffectiveOfNothing()
    ensures Effective("") == []
  {
    assert Trim("") == "";
    assert Flatten([""], LineDirectives) == LineDirectives("") + Flatten([], LineDirectives);
  }

  lemma {:induction false} EffectiveOfJoin(lines: seq<string>)
    requires forall line <- lines :: '\n' !in line
    ensures Effective(JoinLines(lines)) == Flatten(lines, LineDirectives)
  {
    if lines == [] {
      EffectiveOfNothing();
    } else {
      LinesOfJoin(lines);
    }
  }

  /** Copying the surviving text keeps exactly the directives the map is allowed to carry, in order. */
  lemma {:induction false} SurvivingDirectives(text: string)
    requires AllLinesPass(Lines(text))
    ensures Effective(TextOrEmpty(Surviving(text))) == Filter(Effective(text), KeptDirective)
  {
    var retained := Retained(Lines(text));
    LinesHaveNoBreaks(text);
    FilterMembers(Lines(text), RetainedBy(JudgeLine));
    EffectiveOfJoin(retained);
    TrimKeepsDirectives(JoinLines(retained));
    RetainedDirectives(Lines(text));
  }

  // ------------------------------------------------------------ the worker line

  lemma {:induction false} KeyRunStops(key: string, rest: string)
    requires forall c <- key :: KeyChar(c)
    requires rest == "" || !KeyChar(rest[0])
    ensures KeyRun(key + rest) == |key|
  {
    if key == "" {
      assert key + rest == rest;
    } else {
      assert (key + rest)[1..] == key[1..] + rest;
      KeyRunStops(key[1..], rest);
    }
  }

  lemma {:induction false} PlainAssignment(key: string, value: string)
    requires key != "" && IsLetter(key[0]) && forall c <- key :: KeyChar(c)
    requires value != "" && !IsSpace(value[0]) && forall c <- value :: !LineTerminator(c)
    ensures ParseDirective(key + " = " + value) == Directive(key, value)
  {
    var line := key + " = " + value;
    assert line == key + (" = " + value);
    KeyRunStops(key, " = " + value);
    var rest := " = " + value;
    assert line[|key|..] == rest;
    assert SelectorLength(rest) == 0;
    assert rest[1..] == "= " + value;
    assert TrimStart(rest) == "= " + value;
    assert ("= " + value)[1..] == " " + value;
    assert (" " + value)[1..] == value;
    assert TrimStart(" " + value) == TrimStart(value) == value;
    assert line[..|key|] == key;
  }

  lemma {:induction false} DigitsAreDigits(n: nat)
    ensures SqlText.DigitsOf(n) != "" && forall c <- SqlText.DigitsOf(n) :: SqlText.IsDigit(c)
  {
    if n >= 10 { DigitsAreDigits(n / 10); }
  }

  lemma {:induction false} LimitKeyCharacters()
    ensures MAX_CHILDREN != "" && IsLetter(MAX_CHILDREN[0]) && Lower(MAX_CHILDREN) == MAX_CHILDREN
    ensures forall c <- MAX_CHILDREN :: KeyChar(c)
  {
  }

  lemma {:induction false} EffectiveOfLine(line: string, d: Parsed)
    requires '\n' !in line && Trim(line) == line && !Comment(line) && ParseDirective(line) == d
    ensures Effective(line) == [d]
  {
    LinesPrefix(line, "");
    assert Flatten([line], LineDirectives) == LineDirectives(line) + Flatten([], LineDirectives);
  }

  lemma {:induction false} TrimmedLine(line: string)
    requires line != "" && !IsSpace(line[0]) && !IsSpace(line[|line| - 1])
    ensures Trim(line) == line
  {
  }

  lemma {:induction false} AssignmentReads(key: string, value: string)
    requires key != "" && IsLetter(key[0]) && forall c <- key :: KeyChar(c)
    requires value != "" && forall c <- value :: SqlText.IsDigit(c)
    ensures Effective(key + " = " + value) == [Directive(key, value)]
  {
    var line := key + " = " + value;
    assert forall c <- value :: !IsSpace(c) && !LineTerminator(c);
    PlainAssignment(key, value);
    assert line[0] == key[0] && line[|line| - 1] == value[|value| - 1];
    assert value[|value| - 1] in value;
    TrimmedLine(line);
    assert '\n' !in key && '\n' !in value && '\n' !in " = ";
    EffectiveOfLine(line, Directive(key, value));
  }

  lemma {:induction false} LimitLineReads(n: nat)
    ensures Effective(LimitLine(n)) == [Directive(MAX_CHILDREN, SqlText.DigitsOf(n))]
  {
    DigitsAreDigits(n);
    LimitKeyCharacters();
    AssignmentReads(MAX_CHILDREN, SqlText.DigitsOf(n));
  }

  lemma {:induction false} EffectiveOfTwo(a: string, b: string)
    ensures Effective(a + "\n" + b) == Effective(a) + Effective(b)
  {
    LinesAppend(a, b);
    FlattenAppend(Lines(a), Lines(b), LineDirectives);
  }

  /** The staged text: the operator's remaining directives in order, then exactly one worker limit. */
  lemma {:induction false} StagedPoolDirectives(text: string, n: nat)
    requires AllLinesPass(Lines(text))
    ensures Effective(PoolText(Surviving(text), n))
         == Filter(Effective(text), KeptDirective) + [Directive(MAX_CHILDREN, SqlText.DigitsOf(n))]
  {
    SurvivingDirectives(text);
    StagedPoolText(Surviving(text), n);
  }

  lemma {:induction false} StagedPoolText(custom: Option<string>, n: nat)
    ensures Effective(PoolText(custom, n))
         == Effective(TextOrEmpty(custom)) + [Directive(MAX_CHILDREN, SqlText.DigitsOf(n))]
  {
    var kept := Trim(TextOrEmpty(custom));
    TrimKeepsDirectives(TextOrEmpty(custom));
    LimitLineReads(n);
    EffectiveOfNothing();
    EffectiveOfTwo(kept, LimitLine(n));
  }

  // ------------------------------------------------- what never reaches the table

  /** Identity, socket and process-manager settings, dotted members of the two families included. */
  predicate ManagedKey(k: string) {
    k == "listen" || "listen." <= k || k == "pm" || "pm." <= k || OtherManaged(k)
  }

  predicate OtherManaged(k: string) {
    k == "user" || k == "group" || k == "prefix" || k == "include" || k == "chroot" || k == "chdir"
    || k == "rlimit_core" || k == "rlimit_files" || k == "access.log" || k == "slowlog" || k == "request_slowlog_timeout"
  }

  predicate ManagedByPanel(key: string) { ManagedKey(Lower(key)) }

  lemma {:induction false} ManagedHead(k: string)
    requires ManagedKey(k)
    ensures |k| >= 2 && k[0] != 'e' && k[0] != 'd'
    ensures k[0] == 'p' ==> k[1] == 'm' || k[1] == 'r'
    ensures k[0] == 'c' ==> k[1] == 'h'
    ensures k[0] == 'r' ==> |k| < 25
  {
    if !OtherManaged(k) {
      assert k[0] == 'l' || k[0] == 'p';
    }
  }

  lemma {:induction false} SelectorHead(key: string)
    ensures PhpSelector(key).Some? ==> |key| >= 2 && key[0] == 'p' && key[1] == 'h'
  {
  }

  lemma {:induction false} AllowedHead(key: string)
    requires Allowed(key)
    ensures |key| >= 2
    ensures || (key[0] == 'p' && key[1] == 'h') || key[0] == 'e' || key[0] == 'd'
            || (key[0] == 'c' && key[1] != 'h' && key[1] != 'H') || (key[0] == 'r' && |key| == 25)
  {
    SelectorHead(key);
  }

  lemma {:induction false} AllowedIsNotManaged(key: string)
    requires Allowed(key)
    ensures !ManagedByPanel(key)
  {
    AllowedHead(key);
    var k := Lower(key);
    assert k[0] == LowerChar(key[0]) && k[1] == LowerChar(key[1]);
    if ManagedKey(k) {
      ManagedHead(k);
    }
  }

  /** No accepted pool smuggles an agent-owned setting or a managed key past the map, and the only
      worker limit of the staged text is the allocated one. */
  lemma {:induction false} StagedPoolIsClean(text: string, n: nat)
    requires AllLinesPass(Lines(text))
    ensures var staged := Effective(PoolText(Surviving(text), n));
            && Filter(staged, NamesLimit) == [Directive(MAX_CHILDREN, SqlText.DigitsOf(n))]
            && SqlText.ParseNat(SqlText.DigitsOf(n)) == Some(n)
            && forall d <- staged :: d.Directive? && !NamesOwned(d) && (ManagedByPanel(d.key) ==> NamesLimit(d))
  {
    var kept, limit := Filter(Effective(text), KeptDirective), Directive(MAX_CHILDREN, SqlText.DigitsOf(n));
    StagedPoolDirectives(text, n);
    SqlText.DigitsReadBack(n);
    LimitKeyCharacters();
    FilterAppend(kept, [limit], NamesLimit);
    FilterMembers(Effective(text), KeptDirective);
    FilterNone(kept, NamesLimit);
    forall d <- kept ensures d.Directive? && !NamesOwned(d) && !ManagedByPanel(d.key) {
      KeptDirectiveIsAllowed(Lines(text), d);
      AllowedIsNotManaged(d.key);
    }
    assert !NamesOwned(limit) by { assert PhpSelector(MAX_CHILDREN) == None; }
  }

  lemma {:induction false} KeptDirectiveIsAllowed(lines: seq<string>, d: Parsed)
    requires AllLinesPass(lines) && d in Flatten(lines, LineDirectives) && KeptDirective(d)
    ensures d.Directive? && Allowed(d.key)
  {
    AcceptedLine(lines[0]);
    if d !in LineDirectives(lines[0]) {
      KeptDirectiveIsAllowed(lines[1..], d);
    }
  }

  /** A member of the two dotted families. */
  predicate Dotted(k: string) { "listen." < k || "pm." < k }

  lemma {:induction false} DottedHead(k: string)
    ensures Dotted(k) ==> |k| > 2 && (k[0] == 'l' || (k[0] == 'p' && k[1] == 'm'))
  {
  }

  lemma {:induction false} OtherHead(k: string)
    ensures OtherManaged(k) ==> |k| > 2 && k[0] != 'l' && (k[0] == 'p' ==> k[1] == 'r')
  {
  }

  /** The dedicated pattern reports the managed keys without a dotted member name: its two open-ended
      alternatives still have to meet the final anchor. */
  lemma {:induction false} IdentityPattern(key: string)
    ensures IdentityOrResource(key) <==> ManagedByPanel(key) && !Dotted(Lower(key))
  {
    OtherHead(Lower(key));
    DottedHead(Lower(key));
  }

  lemma {:induction false} ManagedIsNotOwned(k: string)
    requires ManagedKey(k)
    ensures !AgentOwned(k)
  {
    ManagedHead(k);
    SelectorHead(k);
  }

  /** Every managed key other than the worker limit is refused; `listen.owner` or `pm.start_servers` are
      left to the allowlist and its other error code. */
  lemma {:induction false} ManagedKeyIsRefused(line: string)
    requires '\r' !in line && Utf8Bytes(line) <= MAX_LINE_BYTES && !Comment(Trim(line))
    requires ParseDirective(Trim(line)).Directive? && ManagedByPanel(ParseDirective(Trim(line)).key)
    requires !NamesLimit(ParseDirective(Trim(line)))
    ensures JudgeLine(line) == Refuse(if Dotted(Lower(ParseDirective(Trim(line)).key)) then DirectiveUnsafe else IdentityOverride)
  {
    var key := ParseDirective(Trim(line)).key;
    ManagedIsNotOwned(Lower(key));
    IdentityPattern(key);
    if Allowed(key) { AllowedIsNotManaged(key); }
  }

  // ------------------------------------------------------------ what a directive is

  /** A bracketed name behind a key. */
  predicate Bracketed(selector: string) {
    && 3 <= |selector| <= 83 && selector[0] == '[' && selector[|selector| - 1] == ']' && IsLetter(selector[1])
    && forall i | 1 <= i < |selector| - 1 :: KeyChar(selector[i])
  }

  /** An assignment with nothing but white space around its sign. */
  predicate Assigns(line: string, name: string, selector: string, before: string, behind: string, value: string) {
    && line == name + selector + before + "=" + behind + value
    && name != "" && IsLetter(name[0]) && (forall c <- name :: KeyChar(c)) && (selector == "" || Bracketed(selector))
    && (forall c <- before :: IsSpace(c)) && (forall c <- behind :: IsSpace(c))
    && (forall c <- value :: !LineTerminator(c)) && (value != "" ==> !IsSpace(value[0]))
  }

  lemma {:induction false} TrimmedFront(s: string) returns (gap: string)
    ensures s == gap + TrimStart(s) && (forall c <- gap :: IsSpace(c)) && (TrimStart(s) != "" ==> !IsSpace(TrimStart(s)[0]))
  {
    gap := "";
    if s != "" && IsSpace(s[0]) {
      var rest := TrimmedFront(s[1..]);
      gap := [s[0]] + rest;
      assert s == [s[0]] + s[1..];
    }
  }

  lemma {:induction false} SelectorShape(s: string)
    ensures SelectorLength(s) > 0 ==> Bracketed(s[..SelectorLength(s)])
  {
    if SelectorLength(s) > 0 {
      var inner := KeyRun(s[1..]);
      forall i | 1 <= i < inner + 1 ensures KeyChar(s[i]) { assert s[i] == s[1..][i - 1]; }
    }
  }

  /** What the pattern takes for a directive is an assignment: its key, a bracketed name perhaps, the sign, the value. */
  lemma {:induction false} DirectiveIsAssignment(line: string) returns (name: string, selector: string, before: string, behind: string)
    requires ParseDirective(line).Directive?
    ensures ParseDirective(line).key == name + selector
    ensures Assigns(line, name, selector, before, behind, ParseDirective(line).value)
  {
    var run := KeyRun(line);
    name, selector := line[..run], line[run..][..SelectorLength(line[run..])];
    SelectorShape(line[run..]);
    assert run > 0 && |selector| == SelectorLength(line[run..]);
    var n := run + |selector|;
    assert selector == line[run..][..n - run];
    before := TrimmedFront(line[n..]);
    var rest := TrimStart(line[n..]);
    behind := TrimmedFront(rest[1..]);
    Rejoined(line, run, n, before, rest, behind, TrimStart(rest[1..]));
  }

  lemma {:induction false} Rejoined(line: string, run: nat, n: nat, before: string, rest: string, behind: string, value: string)
    requires 0 < run <= n <= |line| && line[n..] == before + rest && rest != "" && rest[0] == '=' && rest[1..] == behind + value
    ensures line == line[..run] + line[run..][..n - run] + before + "=" + behind + value
    ensures line[..n] == line[..run] + line[run..][..n - run]
  {
    assert rest == "=" + rest[1..];
    assert line == line[..n] + line[n..];
  }

  /** Plain ASCII text has as many bytes as characters. */
  lemma {:induction false} AsciiBytes(s: string)
    requires forall c <- s :: c < '\U{0080}'
    ensures Utf8Bytes(s) == |s|
  {
    if s != "" {
      assert s[0] in s && forall c <- s[1..] :: c in s;
      AsciiBytes(s[1..]);
    }
  }

  // --------------------------------------------------- what an operator may keep

  /** The four ways to set a PHP option in a pool. */
  datatype Family = PhpValue | PhpFlag | PhpAdminValue | PhpAdminFlag

  function FamilyWord(f: Family): string {
    match f case PhpValue => "php_value" case PhpFlag => "php_flag" case PhpAdminValue => "php_admin_value" case PhpAdminFlag => "php_admin_flag"
  }

  /** The key of such a line as an operator writes it. */
  function SettingKey(f: Family, name: string): string { FamilyWord(f) + ("[" + (name + "]")) }

  predicate SettingName(name: string) { 1 <= |name| <= 80 && IsLetter(name[0]) && forall c <- name :: KeyChar(c) }

  /** A value of printable characters that neither starts nor ends with a space. */
  predicate SettingValue(value: string) {
    value != "" && value[0] != ' ' && value[|value| - 1] != ' ' && forall c <- value :: ' ' <= c <= '~'
  }

  lemma {:induction false} WordCharacters(f: Family)
    ensures var w := FamilyWord(f); |w| > 4 && w[0] == 'p' && w[1] == 'h' && forall c <- w :: 'a' <= c <= 'z' || c == '_'
  {
  }

  lemma {:induction false} SelectorRuns(name: string, rest: string)
    requires SettingName(name)
    ensures SelectorLength("[" + (name + ("]" + rest))) == |name| + 2
  {
    var text := "[" + (name + ("]" + rest));
    assert text[1..] == name + ("]" + rest) && text[1] == name[0] && text[|name| + 1] == ']';
    KeyRunStops(name, "]" + rest);
  }

  lemma {:induction false} SettingKeyLength(f: Family, name: string, rest: string)
    requires SettingName(name)
    ensures var line, w := SettingKey(f, name) + rest, |FamilyWord(f)|;
            KeyRun(line) == w && SelectorLength(line[w..]) == |name| + 2 && line[..w + |name| + 2] == SettingKey(f, name)
            && line[w + |name| + 2..] == rest
  {
    var line, w := SettingKey(f, name) + rest, FamilyWord(f);
    WordCharacters(f);
    assert line == w + ("[" + (name + ("]" + rest)));
    KeyRunStops(w, "[" + (name + ("]" + rest)));
    assert line[|w|..] == "[" + (name + ("]" + rest));
    SelectorRuns(name, rest);
  }

  lemma {:induction false} AssignmentTrims(value: string)
    requires SettingValue(value)
    ensures TrimStart(" = " + value) == "= " + value && TrimStart(("= " + value)[1..]) == value
    ensures forall c <- value :: !LineTerminator(c)
  {
    assert value[0] in value;
    assert (" = " + value)[1..] == "= " + value;
    assert ("= " + value)[1..] == " " + value && (" " + value)[1..] == value;
    assert TrimStart(" " + value) == TrimStart(value) == value;
  }

  lemma {:induction false} ReadsAs(line: string, run: nat, selector: nat, rest: string, value: string)
    requires line != "" && IsLetter(line[0]) && KeyRun(line) == run && SelectorLength(line[run..]) == selector
    requires run + selector <= |line| && TrimStart(line[run + selector..]) == rest
    requires rest != "" && rest[0] == '=' && TrimStart(rest[1..]) == value && forall c <- value :: !LineTerminator(c)
    ensures ParseDirective(line) == Directive(line[..run + selector], value)
  {
  }

  lemma {:induction false} SettingReads(f: Family, name: string, value: string)
    requires SettingName(name) && SettingValue(value)
    ensures ParseDirective(SettingKey(f, name) + (" = " + value)) == Directive(SettingKey(f, name), value)
  {
    var line := SettingKey(f, name) + (" = " + value);
    SettingKeyLength(f, name, " = " + value);
    AssignmentTrims(value);
    WordCharacters(f);
    assert line[0] == FamilyWord(f)[0];
    ReadsAs(line, |FamilyWord(f)|, |name| + 2, "= " + value, value);
  }

  lemma {:induction false} LowerAppend(a: string, b: string)
    ensures Lower(a + b) == Lower(a) + Lower(b)
  {
    forall i | 0 <= i < |a + b| ensures Lower(a + b)[i] == (Lower(a) + Lower(b))[i] {}
  }

  lemma {:induction false} LowerWord(f: Family)
    ensures Lower(FamilyWord(f)) == FamilyWord(f)
  {
    WordCharacters(f);
    var w := FamilyWord(f);
    forall i | 0 <= i < |w| ensures Lower(w)[i] == w[i] { assert w[i] in w; }
  }

  lemma {:induction false} LowerSettingKey(f: Family, name: string)
    ensures Lower(SettingKey(f, name)) == SettingKey(f, Lower(name))
  {
    LowerWord(f);
    LowerAppend(FamilyWord(f), "[" + (name + "]"));
    LowerAppend("[", name + "]");
    LowerAppend(name, "]");
    assert Lower("[") == "[" && Lower("]") == "]";
  }

  lemma {:induction false} PrefixApart(key: string, i: nat, prefix: string)
    requires i < |key| && i < |prefix| && key[i] != prefix[i]
    ensures !(prefix <= key)
  {
  }

  /** Only its own family's prefix fits a key. */
  lemma {:induction false} FamilyPrefix(f: Family, key: string)
    requires FamilyWord(f) + "[" <= key
    ensures ("php_value[" <= key <==> f == PhpValue) && ("php_flag[" <= key <==> f == PhpFlag)
    ensures ("php_admin_value[" <= key <==> f == PhpAdminValue) && ("php_admin_flag[" <= key <==> f == PhpAdminFlag)
  {
    assert key[4] == (FamilyWord(f) + "[")[4];
    if f == PhpAdminValue || f == PhpAdminFlag { assert key[10] == (FamilyWord(f) + "[")[10]; }
    if f != PhpValue { PrefixApart(key, 4, "php_value["); }
    if f != PhpFlag { PrefixApart(key, 4, "php_flag["); }
    if f == PhpAdminFlag { PrefixApart(key, 10, "php_admin_value["); } else if f != PhpAdminValue { PrefixApart(key, 4, "php_admin_value["); }
    if f == PhpAdminValue { PrefixApart(key, 10, "php_admin_flag["); } else if f != PhpAdminFlag { PrefixApart(key, 4, "php_admin_flag["); }
  }

  lemma {:induction false} SelectorOf(f: Family, key: string)
    requires FamilyWord(f) + "[" <= key && key[|key| - 1] == ']'
    ensures PhpSelector(key) == Between(key, |FamilyWord(f)| + 1)
  {
    FamilyPrefix(f, key);
  }

  lemma {:induction false} SettingSelector(f: Family, name: string)
    ensures PhpSelector(SettingKey(f, name)) == Some(name)
  {
    var key, w := SettingKey(f, name), FamilyWord(f) + "[";
    assert key == w + (name + "]") && key[|key| - 1] == ']';
    assert w <= key;
    SelectorOf(f, key);
    assert key[|w|..|key| - 1] == name;
  }

  predicate OwnedName(name: string) {
    name in ["error_log", "sys_temp_dir", "upload_tmp_dir", "session.save_path", "open_basedir"]
  }

  lemma {:induction false} SettingKeyHead(f: Family, name: string)
    ensures var k := Lower(SettingKey(f, name)); |k| > 1 && k[0] == 'p' && k[1] == 'h' && k[|k| - 1] == ']' && k != MAX_CHILDREN
  {
    LowerSettingKey(f, name);
    WordCharacters(f);
    var k := SettingKey(f, Lower(name));
    assert k[1] == FamilyWord(f)[1] && MAX_CHILDREN[1] == 'm';
  }

  lemma {:induction false} SettingKeyOwned(f: Family, name: string)
    ensures AgentOwned(Lower(SettingKey(f, name))) <==> OwnedName(Lower(name))
  {
    LowerSettingKey(f, name);
    SettingSelector(f, Lower(name));
  }

  lemma {:induction false} SettingKeyClass(f: Family, name: string)
    requires SettingName(name)
    ensures Allowed(SettingKey(f, name)) && !IdentityOrResource(SettingKey(f, name)) && Lower(SettingKey(f, name)) != MAX_CHILDREN
    ensures AgentOwned(Lower(SettingKey(f, name))) <==> OwnedName(Lower(name))
  {
    SettingSelector(f, name);
    SettingKeyHead(f, name);
    SettingKeyOwned(f, name);
    AllowedIsNotManaged(SettingKey(f, name));
    IdentityPattern(SettingKey(f, name));
  }

  lemma {:induction false} SettingValueIsSafe(f: Family, name: string, value: string)
    ensures ValueIsSafe(SettingKey(f, name), value)
  {
    SettingKeyHead(f, name);
    assert "clear_env"[8] == 'v' && "catch_workers_output"[19] == 't';
    assert "decorate_workers_output"[22] == 't' && "request_terminate_timeout"[24] == 't';
  }

  lemma {:induction false} SettingLineIsPlain(f: Family, name: string, value: string)
    requires SettingName(name) && SettingValue(value)
    ensures '\r' !in SettingKey(f, name) + (" = " + value)
    ensures forall c <- value :: !ControlCharacter(c)
  {
    WordCharacters(f);
    assert forall c <- name :: c != '\r';
  }

  lemma {:induction false} SettingLineTrims(f: Family, name: string, value: string)
    requires SettingValue(value)
    ensures var line := SettingKey(f, name) + (" = " + value); Trim(line) == line && !Comment(line)
  {
    var line := SettingKey(f, name) + (" = " + value);
    WordCharacters(f);
    assert line[0] == FamilyWord(f)[0] && line[|line| - 1] == value[|value| - 1] && value[|value| - 1] in value;
    TrimmedLine(line);
  }

  lemma {:induction false} SettingIsAscii(f: Family, name: string, value: string)
    requires SettingName(name) && SettingValue(value)
    ensures forall c <- SettingKey(f, name) + (" = " + value) :: c < '\U{0080}'
  {
    WordCharacters(f);
    assert forall c <- name :: c < '\U{0080}';
  }

  lemma {:induction false} AcceptedVerdict(line: string, key: string, value: string)
    requires '\r' !in line && Utf8Bytes(line) <= MAX_LINE_BYTES && Trim(line) == line && !Comment(line)
    requires ParseDirective(line) == Directive(key, value) && Lower(key) != MAX_CHILDREN && !IdentityOrResource(key)
    requires Allowed(key) && ValueIsSafe(key, value) && forall c <- value :: !ControlCharacter(c)
    ensures JudgeLine(line) == if AgentOwned(Lower(key)) then DropOwned else Retain
  {
  }

  /** Every well-formed PHP option of an operator, in any of the four forms, stays as it is, unless the agent sets
      it itself: then its line is dropped. */
  lemma {:induction false} OperatorSettingStays(f: Family, name: string, value: string)
    requires SettingName(name) && SettingValue(value)
    requires |SettingKey(f, name)| + 3 + |value| <= 2048
    ensures JudgeLine(SettingKey(f, name) + (" = " + value)) == if OwnedName(Lower(name)) then DropOwned else Retain
  {
    var line := SettingKey(f, name) + (" = " + value);
    SettingIsAscii(f, name, value);
    AsciiBytes(line);
    SettingReads(f, name, value);
    SettingKeyClass(f, name);
    SettingValueIsSafe(f, name, value);
    SettingLineIsPlain(f, name, value);
    SettingLineTrims(f, name, value);
    AcceptedVerdict(line, SettingKey(f, name), value);
  }

  lemma {:induction false} SelectorMeansFamily(key: string)
    requires PhpSelector(key).Some?
    ensures exists f :: key == SettingKey(f, PhpSelector(key).value)
  {
    var f := if "php_value[" <= key then PhpValue else if "php_flag[" <= key then PhpFlag
             else if "php_admin_value[" <= key then PhpAdminValue else PhpAdminFlag;
    var w := FamilyWord(f) + "[";
    assert w <= key && PhpSelector(key) == Between(key, |w|);
    Bracket(f, key, |w|);
  }

  lemma {:induction false} Bracket(f: Family, key: string, n: nat)
    requires n == |FamilyWord(f)| + 1 && FamilyWord(f) + "[" <= key && n < |key| && key[|key| - 1] == ']'
    ensures key == SettingKey(f, key[n..|key| - 1])
  {
    assert key == key[..n] + key[n..|key| - 1] + "]";
  }

  const FIXED_KEYS := ["env[PATH]", "env[HOME]", "env[TMP]", "env[TMPDIR]", "env[TEMP]", "clear_env", "catch_workers_output",
                       "decorate_workers_output", "request_terminate_timeout"]

  predicate OptionKey(key: string, f: Family, name: string) {
    key == SettingKey(f, name) && 1 <= |name| <= 80 && forall c <- name :: KeyChar(c)
  }

  /** The allowlist: the four forms of a PHP option, and nine fixed keys. */
  lemma {:induction false} AllowedInWords(key: string)
    ensures Allowed(key) <==> key in FIXED_KEYS || exists f, name :: OptionKey(key, f, name)
  {
    FixedKeys(key);
    if PhpSelector(key).Some? {
      SelectorMeansFamily(key);
      var f :| key == SettingKey(f, PhpSelector(key).value);
      if 1 <= |PhpSelector(key).value| <= 80 && forall c <- PhpSelector(key).value :: KeyChar(c) {
        assert OptionKey(key, f, PhpSelector(key).value);
      }
    }
    forall f, name | OptionKey(key, f, name) ensures PhpSelector(key) == Some(name) {
      SettingSelector(f, name);
    }
  }

  lemma {:induction false} FixedKeys(key: string)
    ensures key in FIXED_KEYS <==>
              || key == "env[PATH]" || key == "env[HOME]" || key == "env[TMP]" || key == "env[TMPDIR]" || key == "env[TEMP]"
              || key == "clear_env" || key == "catch_workers_output" || key == "decorate_workers_output"
              || key == "request_terminate_timeout"
  {
  }

  /** A timeout is a number of seconds, or of minutes, hours, days or weeks. */
  lemma {:induction false} TimeoutReads(n: nat, unit: char)
    requires |SqlText.DigitsOf(n)| <= 7 && unit in "smhdw"
    ensures TimeoutSeconds(SqlText.DigitsOf(n)) == Some(n)
    ensures TimeoutSeconds(SqlText.DigitsOf(n) + [unit])
         == Some(n * match unit case 's' => 1 case 'm' => 60 case 'h' => 60 * 60 case 'd' => 24 * 60 * 60 case _ => 7 * 24 * 60 * 60)
  {
    var digits := SqlText.DigitsOf(n);
    DigitsAreDigits(n);
    SqlText.DigitsReadBack(n);
    assert digits[|digits| - 1] in digits;
    assert (digits + [unit])[..|digits + [unit]| - 1] == digits;
    assert "smhdw"[0] == 's' && "smhdw"[1] == 'm' && "smhdw"[2] == 'h' && "smhdw"[3] == 'd' && "smhdw"[4] == 'w';
  }

  /** What a fixed key may be set to. */
  predicate FixedValue(key: string, value: string) {
    && (key == "clear_env" ==> Lower(Trim(value)) == "yes")
    && (key == "catch_workers_output" || key == "decorate_workers_output" ==> Lower(Trim(value)) == "yes" || Lower(Trim(value)) == "no")
    && (key == "request_terminate_timeout" ==>
          TimeoutSeconds(Lower(Trim(value))).Some? && TimeoutSeconds(Lower(Trim(value))).value <= 2_678_400)
  }

  /** A listed key, a value it may have, and no control character but tabs. */
  ghost predicate Listed(key: string, value: string) {
    && (key in FIXED_KEYS || exists f, name :: OptionKey(key, f, name))
    && FixedValue(key, value) && forall c <- value :: c == '\t' || (' ' <= c && c != '\U{007f}')
  }

  lemma {:induction false} LowerPlain(word: string)
    requires forall c <- word :: !('A' <= c <= 'Z')
    ensures Lower(word) == word
  {
    forall i | 0 <= i < |word| ensures Lower(word)[i] == word[i] { assert word[i] in word; }
  }

  lemma {:induction false} FixedIsSmall(key: string)
    requires key == "clear_env" || key == "catch_workers_output" || key == "decorate_workers_output" || key == "request_terminate_timeout"
    ensures forall c <- key :: !('A' <= c <= 'Z')
  {
  }

  lemma {:induction false} LowerFixed(key: string)
    requires key in FIXED_KEYS && key[|key| - 1] != ']'
    ensures Lower(key) == key
  {
    FixedKeys(key);
    FixedIsSmall(key);
    LowerPlain(key);
  }

  lemma {:induction false} BracketIsPlain(key: string, value: string)
    requires key != "" && key[|key| - 1] == ']'
    ensures ValueIsSafe(key, value) && FixedValue(key, value)
  {
    var k := Lower(key);
    assert k[|k| - 1] == ']';
    assert "clear_env"[8] == 'v' && "catch_workers_output"[19] == 't';
    assert "decorate_workers_output"[22] == 't' && "request_terminate_timeout"[24] == 't';
  }

  lemma {:induction false} OptionLast(key: string, f: Family, name: string)
    requires OptionKey(key, f, name)
    ensures key != "" && key[|key| - 1] == ']'
  {
  }

  lemma {:induction false} ValueInWords(key: string, value: string)
    requires Allowed(key)
    ensures ValueIsSafe(key, value) <==> FixedValue(key, value)
  {
    AllowedInWords(key);
    if key in FIXED_KEYS {
      FixedKeys(key);
      if key[|key| - 1] == ']' { BracketIsPlain(key, value); } else { LowerFixed(key); }
    } else {
      var f, name :| OptionKey(key, f, name);
      OptionLast(key, f, name);
      BracketIsPlain(key, value);
    }
  }

  lemma {:induction false} ListedInWords(key: string, value: string)
    ensures Listed(key, value) <==>
              Allowed(key) && ValueIsSafe(key, value) && !exists c <- value :: c != '\t' && ControlCharacter(c)
  {
    AllowedInWords(key);
    if Allowed(key) { ValueInWords(key, value); }
  }

  /** Which lines stay: blank ones and comments, and assignments of a listed key that the agent does not set
      itself, unless the line is over 2048 bytes or holds a carriage return. Identity, socket and process
      settings are never among them, so no other rule is needed. */
  lemma {:induction false} RetainedInWords(line: string)
    ensures JudgeLine(line) == Retain <==>
              && '\r' !in line && Utf8Bytes(line) <= 2048
              && var text := Trim(line);
                 || text == "" || text[0] == ';' || text[0] == '#'
                 || (ParseDirective(text).Directive? && !AgentOwned(Lower(ParseDirective(text).key))
                     && Listed(ParseDirective(text).key, ParseDirective(text).value))
  {
    if ParseDirective(Trim(line)).Directive? {
      var key := ParseDirective(Trim(line)).key;
      ListedInWords(key, ParseDirective(Trim(line)).value);
      if Allowed(key) { AllowedIsNoLimit(key); }
    }
  }

  lemma {:induction false} AllowedIsNoLimit(key: string)
    requires Allowed(key)
    ensures Lower(key) != MAX_CHILDREN && !IdentityOrResource(key)
  {
    AllowedIsNotManaged(key);
    IdentityPattern(key);
    assert "pm." <= MAX_CHILDREN && ManagedKey(MAX_CHILDREN);
  }

  lemma {:induction false} AssignmentParses(key: string, value: string)
    requires key != "" && IsLetter(key[0]) && forall c <- key :: KeyChar(c)
    requires value != "" && forall c <- value :: SqlText.IsDigit(c)
    ensures var line := key + " = " + value;
            && Trim(line) == line && !Comment(line) && ParseDirective(line) == Directive(key, value) && '\r' !in line
    ensures Trim(value) == value
  {
    var line := key + " = " + value;
    assert forall c <- value :: !IsSpace(c) && !LineTerminator(c);
    PlainAssignment(key, value);
    assert line[0] == key[0] && line[|line| - 1] == value[|value| - 1];
    assert value[0] in value && value[|value| - 1] in value;
    TrimmedLine(line);
    TrimmedLine(value);
    assert '\r' !in key && '\r' !in value && '\r' !in " = ";
  }

  lemma {:induction false} LimitVerdict(line: string, value: string)
    requires Utf8Bytes(line) <= MAX_LINE_BYTES && '\r' !in line && Trim(line) == line && !Comment(line)
    requires ParseDirective(line) == Directive(MAX_CHILDREN, value) && Trim(value) == value && Lower(MAX_CHILDREN) == MAX_CHILDREN
    ensures var limit := SqlText.ParseNat(value);
            JudgeLine(line) == if limit.Some? && 1 <= limit.value <= 1024 then Limit(limit.value) else Refuse(MaxChildrenInvalid)
  {
  }

  lemma {:induction false} LimitLineIsAscii(n: nat)
    ensures forall c <- LimitLine(n) :: c < '\U{0080}'
  {
    LimitKeyCharacters();
    DigitsAreDigits(n);
    assert forall c <- MAX_CHILDREN :: KeyChar(c) && c < '\U{0080}';
  }

  /** A worker limit counts when it lies between 1 and 1024, and is refused otherwise. */
  lemma {:induction false} WorkerLineDecides(n: nat)
    requires |LimitLine(n)| <= 2048
    ensures JudgeLine(LimitLine(n)) == if 1 <= n <= 1024 then Limit(n) else Refuse(MaxChildrenInvalid)
  {
    DigitsAreDigits(n);
    LimitKeyCharacters();
    LimitLineIsAscii(n);
    AsciiBytes(LimitLine(n));
    AssignmentParses(MAX_CHILDREN, SqlText.DigitsOf(n));
    SqlText.DigitsReadBack(n);
    LimitVerdict(LimitLine(n), SqlText.DigitsOf(n));
  }

  // --------------------------------------------------------------- worker split

  /** base + (index < remainder ? 1 : 0) */
  function Share(budget: nat, count: nat, index: nat): nat
    requires count > 0
  {
    budget / count + if index < budget % count then 1 else 0
  }

  function Total(shares: seq<nat>): nat {
    if shares == [] then 0 else shares[|shares| - 1] + Total(shares[..|shares| - 1])
  }

  function Shares(budget: nat, count: nat): (shares: seq<nat>)
    requires count > 0
    ensures |shares| == count
  {
    seq(count, i requires 0 <= i < count => Share(budget, count, i))
  }

  lemma {:induction false} PartialTotal(budget: nat, count: nat, k: nat)
    requires 0 < count && k <= count
    ensures var r := budget % count;
            Total(Shares(budget, count)[..k]) == k * (budget / count) + if k < r then k else r
  {
    if k > 0 {
      PartialTotal(budget, count, k - 1);
      var shares, base := Shares(budget, count), budget / count;
      assert shares[..k][..k - 1] == shares[..k - 1] && shares[..k][k - 1] == Share(budget, count, k - 1);
      assert k * base == (k - 1) * base + base;
    } else {
      assert Shares(budget, count)[..0] == [];
    }
  }

  /** The split hands out exactly the observed budget, gives everyone a worker, and is as even as possible. */
  lemma {:induction false} SplitIsExactAndFair(budget: nat, count: nat)
    requires 0 < count <= budget
    ensures Total(Shares(budget, count)) == budget
    ensures forall s <- Shares(budget, count) :: s >= 1
    ensures forall s, t | s in Shares(budget, count) && t in Shares(budget, count) :: s <= t + 1
  {
    var shares := Shares(budget, count);
    PartialTotal(budget, count, count);
    assert shares[..count] == shares;
    assert count * (budget / count) + budget % count == budget;
    assert budget / count >= 1;
    forall s | s in shares ensures budget / count <= s <= budget / count + 1 {
      var i :| 0 <= i < count && shares[i] == s;
    }
  }

  /** The allocation loop over the PHP domains of one site. */
  method Allocate(domains: seq<string>, budget: nat) returns (allocations: map<string, nat>)
    requires 0 < |domains| <= budget
    ensures allocations.Keys == Elements(domains)
    ensures Distinct(domains) ==> forall i | 0 <= i < |domains| :: allocations[domains[i]] == Shares(budget, |domains|)[i]
  {
    var base, remainder := budget / |domains|, budget % |domains|;
    allocations := map[];
    for i := 0 to |domains|
      invariant allocations.Keys == Elements(domains[..i])
      invariant Distinct(domains) ==>
                  forall j | 0 <= j < i :: domains[j] in allocations && allocations[domains[j]] == Share(budget, |domains|, j)
    {
      allocations := allocations[domains[i] := base + if i < remainder then 1 else 0];
      assert domains[..i + 1] == domains[..i] + [domains[i]];
    }
    assert domains[..|domains|] == domains;
  }
}
