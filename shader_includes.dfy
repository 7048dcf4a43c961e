/** The GLSL `#include` preprocessor of the raging-sea scene.

    `processShader` scans the ORIGINAL shader text for directives
    `#include <spaces> <path>`, left to right. Each path is normalised to a
    key (quotes and angle brackets removed, last `/`-segment kept). A key
    found in the include table is expanded recursively, once per call, and
    the result is memoised. The first remaining occurrence of the directive's
    text in the working copy is then replaced by the expansion, or by the
    empty text when the key is unknown.

    The source has no cycle guard: an include that reaches itself again
    recurses until the JavaScript stack overflows. The model keeps the set of
    keys on the recursion stack and answers `Err(IncludeCycle(key))` at the
    point where the source would start its endless descent. */
module ShaderIncludes {
  import opened Common

  type Table = map<string, string>

  datatype IncludeError = IncludeCycle(key: string)

  /** The shipped table: four include files under their bare file names.
      Their GLSL text is imported from files that are not part of this model,
      so it is a parameter here. */
  function ShaderIncludeTable(perlin: string, ambient: string, directional: string, point: string): (t: Table)
    ensures t.Keys == {"perlinClassic3D.glsl", "ambientLight.glsl", "directionalLight.glsl", "pointLight.glsl"}
    ensures t["perlinClassic3D.glsl"] == perlin && t["ambientLight.glsl"] == ambient
    ensures t["directionalLight.glsl"] == directional && t["pointLight.glsl"] == point
  {
    map["perlinClassic3D.glsl" := perlin, "ambientLight.glsl" := ambient,
        "directionalLight.glsl" := directional, "pointLight.glsl" := point]
  }

  // ---------------------------------------------------------------------
  // The directive pattern /#include\s+([^\s]+)/g
  // ---------------------------------------------------------------------

  const DirectiveWord := "#include"

  /** JavaScript's `\s` class (ECMAScript WhiteSpace and LineTerminator). */
  predicate IsSpace(c: char) {
    || c == ' ' || c == '\t' || c == '\n' || c == '\r' || c == '\U{B}' || c == '\U{C}'
    || c == '\U{A0}' || c == '\U{1680}' || ('\U{2000}' <= c <= '\U{200A}')
    || c == '\U{2028}' || c == '\U{2029}' || c == '\U{202F}' || c == '\U{205F}'
    || c == '\U{3000}' || c == '\U{FEFF}'
  }

  /** Length of the maximal run of white space starting at `i` (what the
      greedy `\s+` consumes). */
  function SpaceRun(s: string, i: nat): (n: nat)
    requires i <= |s|
    ensures i + n <= |s|
    ensures forall k :: i <= k < i + n ==> IsSpace(s[k])
    ensures i + n == |s| || !IsSpace(s[i + n])
    decreases |s| - i
  {
    if i < |s| && IsSpace(s[i]) then 1 + SpaceRun(s, i + 1) else 0
  }

  /** Length of the maximal run of non-space characters starting at `i`
      (what the greedy `[^\s]+` consumes). */
  function WordRun(s: string, i: nat): (n: nat)
    requires i <= |s|
    ensures i + n <= |s|
    ensures forall k :: i <= k < i + n ==> !IsSpace(s[k])
    ensures i + n == |s| || IsSpace(s[i + n])
    decreases |s| - i
  {
    if i < |s| && !IsSpace(s[i]) then 1 + WordRun(s, i + 1) else 0
  }

  /** The pattern matches at position `p`: the word `#include`, at least one
      space, at least one non-space character. */
  predicate DirectiveAt(s: string, p: nat) {
    && p + |DirectiveWord| <= |s|
    && s[p..p + |DirectiveWord|] == DirectiveWord
    && SpaceRun(s, p + 8) >= 1
    && WordRun(s, p + 8 + SpaceRun(s, p + 8)) >= 1
  }

  /** `match[0]` is `text`, `match[1]` is `path`; `end` is the regex's
      `lastIndex` after the match. */
  datatype Match = Match(start: nat, end: nat, text: string, path: string)

  function MatchAt(s: string, p: nat): (m: Match)
    requires DirectiveAt(s, p)
    ensures m.start == p < m.end <= |s|
    ensures m.text == s[p..m.end] && |m.text| > |DirectiveWord|
    ensures m.text[..8] == DirectiveWord
  {
    var ws := SpaceRun(s, p + 8);
    var e := p + 8 + ws + WordRun(s, p + 8 + ws);
    Match(p, e, s[p..e], s[p + 8 + ws..e])
  }

  /** One `includeRegex.exec(shader)` from `lastIndex == from`: the leftmost
      match at or after `from`, or none. */
  function NextMatch(s: string, from: nat): (r: Option<Match>)
    ensures r.Some? ==> from <= r.value.start && DirectiveAt(s, r.value.start)
                        && r.value == MatchAt(s, r.value.start)
    ensures r.None? ==> forall p :: from <= p ==> !DirectiveAt(s, p)
    decreases |s| - from
  {
    if from >= |s| then None
    else if DirectiveAt(s, from) then Some(MatchAt(s, from))
    else NextMatch(s, from + 1)
  }

  /** The match `exec` returns is the leftmost one: the pattern matches
      nowhere between `from` and it. */
  lemma {:induction false} NextMatchLeftmost(s: string, from: nat, p: nat)
    requires NextMatch(s, from).Some? && from <= p < NextMatch(s, from).value.start
    ensures !DirectiveAt(s, p)
    decreases |s| - from
  {
    if p > from {
      NextMatchLeftmost(s, from + 1, p);
    }
  }

  // ---------------------------------------------------------------------
  // Path normalisation
  // ---------------------------------------------------------------------

  predicate IsQuote(c: char) { c == '\'' || c == '"' || c == '<' || c == '>' }

  /** `path.replace(/['"<>]/g, "")` */
  function StripQuotes(p: string): (q: string)
    ensures |q| <= |p|
    ensures forall i :: 0 <= i < |q| ==> !IsQuote(q[i])
  {
    if p == [] then [] else (if IsQuote(p[0]) then [] else [p[0]]) + StripQuotes(p[1..])
  }

  /** `s.split("/").pop() || ""`: the text after the last slash, or all of
      `s` when it has none. */
  function LastSegment(s: string): (k: string)
    ensures |k| <= |s| && k == s[|s| - |k|..]
    ensures forall i :: 0 <= i < |k| ==> k[i] != '/'
    ensures |k| < |s| ==> s[|s| - |k| - 1] == '/'
  {
    if s == [] then []
    else if s[|s| - 1] == '/' then []
    else LastSegment(s[..|s| - 1]) + [s[|s| - 1]]
  }

  function KeyOf(path: string): string {
    LastSegment(StripQuotes(path))
  }

  // ---------------------------------------------------------------------
  // String.prototype.replace with a string pattern (literal replacement)
  // ---------------------------------------------------------------------

  predicate OccursAt(s: string, pat: string, i: nat) {
    i + |pat| <= |s| && s[i..i + |pat|] == pat
  }

  /** `s.indexOf(pat, from)` */
  function IndexOf(s: string, pat: string, from: nat): (r: Option<nat>)
    ensures r.Some? ==> from <= r.value && OccursAt(s, pat, r.value)
    ensures r.Some? ==> forall i :: from <= i < r.value ==> !OccursAt(s, pat, i)
    ensures r.None? ==> forall i :: from <= i ==> !OccursAt(s, pat, i)
    decreases |s| - from
  {
    if from + |pat| > |s| then None
    else if OccursAt(s, pat, from) then Some(from)
    else IndexOf(s, pat, from + 1)
  }

  /** The search finds an occurrence exactly when it is the first one from
      the start. */
  lemma IndexOfAt(s: string, pat: string, from: nat, i: nat)
    requires from <= i && OccursAt(s, pat, i)
    requires forall j :: from <= j < i ==> !OccursAt(s, pat, j)
    ensures IndexOf(s, pat, from) == Some(i)
  {
    var r := IndexOf(s, pat, from);
    assert r.Some?;
    assert !(r.value < i);
  }

  /** `s.replace(pat, rep)`: the first occurrence of `pat` is replaced,
      nothing happens when there is none. */
  function ReplaceFirst(s: string, pat: string, rep: string): (r: string)
  {
    match IndexOf(s, pat, 0)
    case None => s
    case Some(i) => s[..i] + rep + s[i + |pat|..]
  }

  /** Replacing at the first occurrence: what precedes it and what follows
      it are kept, and the replacement takes the place of the pattern. */
  lemma ReplaceFirstAt(s: string, pat: string, rep: string, i: nat)
    requires OccursAt(s, pat, i)
    requires forall j :: 0 <= j < i ==> !OccursAt(s, pat, j)
    ensures ReplaceFirst(s, pat, rep) == s[..i] + rep + s[i + |pat|..]
  {
    IndexOfAt(s, pat, 0, i);
  }

  /** A pattern that does not occur leaves the text unchanged. */
  lemma ReplaceFirstAbsent(s: string, pat: string, rep: string)
    requires forall j :: 0 <= j ==> !OccursAt(s, pat, j)
    ensures ReplaceFirst(s, pat, rep) == s
  {
    assert IndexOf(s, pat, 0).None?;
  }

  // ---------------------------------------------------------------------
  // The expansion, as a function (the specification of ProcessShader)
  // ---------------------------------------------------------------------

  /** Entering one more table key shrinks the set of keys still available. */
  lemma StackGrows(keys: set<string>, visiting: set<string>, key: string)
    requires key in keys && key !in visiting
    ensures |keys - (visiting + {key})| < |keys - visiting|
  {
    assert keys - (visiting + {key}) == (keys - visiting) - {key};
  }

  /** Expanding `shader` while the keys in `visiting` are being expanded
      further up the call stack. */
  function Expand(shader: string, table: Table, visiting: set<string>): Result<string, IncludeError>
    decreases |table.Keys - visiting|, 1, 0
  {
    ExpandFrom(shader, 0, table, visiting, shader, map[])
  }

  /** The rest of the `while` loop: matches of `shader` from `from` on,
      applied to the working copy `work`, with memo table `memo`. */
  function ExpandFrom(shader: string, from: nat, table: Table, visiting: set<string>,
                      work: string, memo: map<string, string>): Result<string, IncludeError>
    decreases |table.Keys - visiting|, 0, |shader| - from
  {
    match NextMatch(shader, from)
    case None => Ok(work)
    case Some(m) =>
      var key := KeyOf(m.path);
      if key !in memo && key in table then
        if key in visiting then Err(IncludeCycle(key))
        else
          StackGrows(table.Keys, visiting, key);
          match Expand(table[key], table, visiting + {key})
          case Err(e) => Err(e)
          case Ok(sub) => ExpandFrom(shader, m.end, table, visiting, ReplaceFirst(work, m.text, sub), memo[key := sub])
      else if key in memo then
        ExpandFrom(shader, m.end, table, visiting, ReplaceFirst(work, m.text, memo[key]), memo)
      else
        ExpandFrom(shader, m.end, table, visiting, ReplaceFirst(work, m.text, ""), memo)
  }

  // ---------------------------------------------------------------------
  // processShader
  // ---------------------------------------------------------------------

  /** `processShader(shader, table)` is `ProcessShader(shader, table, {})`. */
  method ProcessShader(shader: string, table: Table, visiting: set<string>)
    returns (r: Result<string, IncludeError>)
    ensures r == Expand(shader, table, visiting)
    decreases |table.Keys - visiting|
  {
    var processed := shader;
    var processedIncludes: map<string, string> := map[];
    var lastIndex: nat := 0;
    var next := NextMatch(shader, lastIndex);
    while next.Some?
      invariant next == NextMatch(shader, lastIndex)
      invariant Expand(shader, table, visiting) == ExpandFrom(shader, lastIndex, table, visiting, processed, processedIncludes)
      decreases |shader| - lastIndex
    {
      var m := next.value;
      var key := KeyOf(m.path);
      if key !in processedIncludes && key in table {
        if key in visiting {
          return Err(IncludeCycle(key));
        }
        StackGrows(table.Keys, visiting, key);
        var sub := ProcessShader(table[key], table, visiting + {key});
        if sub.Err? {
          return sub;
        }
        processedIncludes := processedIncludes[key := sub.value];
      }
      if key in processedIncludes {
        processed := ReplaceFirst(processed, m.text, processedIncludes[key]);
      } else {
        processed := ReplaceFirst(processed, m.text, "");
      }
      lastIndex := m.end;
      next := NextMatch(shader, lastIndex);
    }
    return Ok(processed);
  }

  // ---------------------------------------------------------------------
  // Properties
  // ---------------------------------------------------------------------

  /** A shader without any directive comes back unchanged. */
  lemma NoDirectiveUnchanged(shader: string, table: Table, visiting: set<string>)
    requires forall p :: !DirectiveAt(shader, p)
    ensures Expand(shader, table, visiting) == Ok(shader)
  {
    assert NextMatch(shader, 0).None?;
  }

  /** Wherever the text of a match occurs again, the pattern matches there too. */
  lemma MatchTextIsDirective(s: string, p: nat, q: nat)
    requires DirectiveAt(s, p) && OccursAt(s, MatchAt(s, p).text, q)
    ensures DirectiveAt(s, q)
  {
    var t := MatchAt(s, p).text;
    var ws := SpaceRun(s, p + 8);
    assert s[q..q + |t|] == t;
    assert s[q..q + 8] == s[q..q + |t|][..8];
    forall k | q + 8 <= k < q + 8 + ws ensures IsSpace(s[k]) {
      assert s[k] == t[k - q] == s[p + (k - q)];
    }
    assert s[q + 8 + ws] == t[8 + ws] == s[p + 8 + ws];
    assert SpaceRun(s, q + 8) == ws;
  }

  /** The first match's text first occurs where the match is. */
  lemma FirstOccurrence(s: string, m: Match)
    requires NextMatch(s, 0) == Some(m)
    ensures IndexOf(s, m.text, 0) == Some(m.start)
  {
    assert OccursAt(s, m.text, m.start);
    forall q | 0 <= q < m.start
      ensures !OccursAt(s, m.text, q)
    {
      NoEarlierOccurrence(s, m, q);
    }
    IndexOfAt(s, m.text, 0, m.start);
  }

  /** Before the first match, its text does not occur at all. */
  lemma NoEarlierOccurrence(s: string, m: Match, q: nat)
    requires NextMatch(s, 0) == Some(m) && q < m.start
    ensures !OccursAt(s, m.text, q)
  {
    if OccursAt(s, m.text, q) {
      MatchTextIsDirective(s, m.start, q);
      NextMatchLeftmost(s, 0, q);
    }
  }

  /** Replacing the first match's text splices the replacement in at exactly
      the place of the match. */
  lemma FirstMatchSplice(s: string, m: Match, rep: string)
    requires NextMatch(s, 0) == Some(m)
    ensures ReplaceFirst(s, m.text, rep) == s[..m.start] + rep + s[m.end..]
  {
    FirstOccurrence(s, m);
    assert m.start + |m.text| == m.end;
    ReplaceFirstAt(s, m.text, rep, m.start);
  }

  /** Replacing the first match's text by nothing cuts exactly the match out. */
  lemma FirstMatchCut(s: string, m: Match)
    requires NextMatch(s, 0) == Some(m)
    ensures ReplaceFirst(s, m.text, "") == s[..m.start] + s[m.end..]
  {
    FirstMatchSplice(s, m, "");
    assert s[..m.start] + "" == s[..m.start];
  }

  lemma FirstUnknownStep(shader: string, table: Table, visiting: set<string>, m: Match)
    requires NextMatch(shader, 0) == Some(m) && KeyOf(m.path) !in table
    ensures Expand(shader, table, visiting)
         == ExpandFrom(shader, m.end, table, visiting, ReplaceFirst(shader, m.text, ""), map[])
  {
  }

  lemma FirstKnownStep(shader: string, table: Table, visiting: set<string>, m: Match, c: string)
    requires NextMatch(shader, 0) == Some(m)
    requires KeyOf(m.path) in table && KeyOf(m.path) !in visiting
    requires Expand(table[KeyOf(m.path)], table, visiting + {KeyOf(m.path)}) == Ok(c)
    ensures Expand(shader, table, visiting)
         == ExpandFrom(shader, m.end, table, visiting, ReplaceFirst(shader, m.text, c), map[KeyOf(m.path) := c])
  {
  }

  /** The first directive of a shader, when its key is unknown: it is cut
      out exactly where it stood and the scan goes on after it. */
  lemma FirstUnknownDirective(shader: string, table: Table, visiting: set<string>, m: Match)
    requires NextMatch(shader, 0) == Some(m) && KeyOf(m.path) !in table
    ensures Expand(shader, table, visiting)
         == ExpandFrom(shader, m.end, table, visiting, shader[..m.start] + shader[m.end..], map[])
  {
    FirstUnknownStep(shader, table, visiting, m);
    FirstMatchCut(shader, m);
  }

  /** The first directive of a shader, when its key is in the table and not
      already being expanded: the entry, expanded with the same table, is
      spliced in exactly where the directive stood, and the scan goes on
      after it with that expansion memoised. */
  lemma FirstKnownDirective(shader: string, table: Table, visiting: set<string>, m: Match, c: string)
    requires NextMatch(shader, 0) == Some(m)
    requires KeyOf(m.path) in table && KeyOf(m.path) !in visiting
    requires Expand(table[KeyOf(m.path)], table, visiting + {KeyOf(m.path)}) == Ok(c)
    ensures Expand(shader, table, visiting)
         == ExpandFrom(shader, m.end, table, visiting, shader[..m.start] + c + shader[m.end..], map[KeyOf(m.path) := c])
  {
    FirstKnownStep(shader, table, visiting, m, c);
    FirstMatchSplice(shader, m, c);
  }

  /** Past the last match, the scan returns the working copy. */
  lemma ScanEnds(shader: string, from: nat, table: Table, visiting: set<string>,
                 work: string, memo: map<string, string>)
    requires NextMatch(shader, from).None?
    ensures ExpandFrom(shader, from, table, visiting, work, memo) == Ok(work)
  {
  }

  /** A shader with one directive whose key is in the table: the directive is
      replaced, in place, by the table entry expanded with the same table. */
  lemma SingleKnownInclude(shader: string, table: Table, visiting: set<string>, m: Match, content: string)
    requires NextMatch(shader, 0) == Some(m) && NextMatch(shader, m.end).None?
    requires KeyOf(m.path) in table && KeyOf(m.path) !in visiting
    requires Expand(table[KeyOf(m.path)], table, visiting + {KeyOf(m.path)}) == Ok(content)
    ensures Expand(shader, table, visiting) == Ok(shader[..m.start] + content + shader[m.end..])
  {
    FirstKnownDirective(shader, table, visiting, m, content);
    ScanEnds(shader, m.end, table, visiting, shader[..m.start] + content + shader[m.end..],
             map[KeyOf(m.path) := content]);
  }

  /** A shader with one directive whose key is not in the table: the
      directive is deleted. */
  lemma SingleUnknownInclude(shader: string, table: Table, visiting: set<string>, m: Match)
    requires NextMatch(shader, 0) == Some(m) && NextMatch(shader, m.end).None?
    requires KeyOf(m.path) !in table
    ensures Expand(shader, table, visiting) == Ok(shader[..m.start] + shader[m.end..])
  {
    FirstUnknownDirective(shader, table, visiting, m);
  }

  /** A first directive whose key is being expanded further up the stack:
      the source would recurse into the same entry again, without end. */
  lemma FirstCyclicDirective(shader: string, table: Table, visiting: set<string>, m: Match)
    requires NextMatch(shader, 0) == Some(m)
    requires KeyOf(m.path) in table && KeyOf(m.path) in visiting
    ensures Expand(shader, table, visiting) == Err(IncludeCycle(KeyOf(m.path)))
  {
  }

  /** A failure while expanding the first directive's entry is the failure of
      the whole expansion. */
  lemma FirstDirectiveFails(shader: string, table: Table, visiting: set<string>, m: Match, e: IncludeError)
    requires NextMatch(shader, 0) == Some(m)
    requires KeyOf(m.path) in table && KeyOf(m.path) !in visiting
    requires Expand(table[KeyOf(m.path)], table, visiting + {KeyOf(m.path)}) == Err(e)
    ensures Expand(shader, table, visiting) == Err(e)
  {
  }

  /** A table entry that includes itself first makes the expansion of any
      shader whose first directive reaches it diverge (in the source: a
      stack overflow). */
  lemma SelfIncludeIsCycle(shader: string, table: Table, m: Match, m': Match)
    requires NextMatch(shader, 0) == Some(m)
    requires KeyOf(m.path) in table
    requires NextMatch(table[KeyOf(m.path)], 0) == Some(m') && KeyOf(m'.path) == KeyOf(m.path)
    ensures Expand(shader, table, {}) == Err(IncludeCycle(KeyOf(m.path)))
  {
    var key := KeyOf(m.path);
    assert {} + {key} == {key};
    FirstCyclicDirective(table[key], table, {key}, m');
    FirstDirectiveFails(shader, table, {}, m, IncludeCycle(key));
  }

  // Cycles

  /** The scan of `s` from `from` meets a directive whose key is `k`. */
  ghost predicate MentionsFrom(s: string, from: nat, k: string)
    decreases |s| - from
  {
    match NextMatch(s, from)
    case None => false
    case Some(m) => KeyOf(m.path) == k || MentionsFrom(s, m.end, k)
  }

  /** A chain of keys in which each key's table entry mentions the next. */
  ghost predicate IncludeChain(table: Table, path: seq<string>) {
    forall i :: 0 <= i < |path| - 1 ==> path[i] in table && MentionsFrom(table[path[i]], 0, path[i + 1])
  }

  /** `path` leads from the scan of `s` at `from` through the table to `k`. */
  ghost predicate IsPathFrom(table: Table, s: string, from: nat, path: seq<string>, k: string) {
    |path| >= 1 && MentionsFrom(s, from, path[0]) && path[|path| - 1] == k && IncludeChain(table, path)
  }

  /** Following directives from `from` on and then through the table's
      entries, `s` leads to `k`. */
  ghost predicate ReachesFrom(table: Table, s: string, from: nat, k: string) {
    exists path :: IsPathFrom(table, s, from, path, k)
  }

  /** `k`'s own entry leads back to `k`: expanding it never ends in the
      source. */
  ghost predicate Cyclic(table: Table, k: string) {
    k in table && ReachesFrom(table, table[k], 0, k)
  }

  /** A chain found later in the scan is found from an earlier point too. */
  lemma ReachesEarlier(table: Table, s: string, from: nat, m: Match, k: string)
    requires NextMatch(s, from) == Some(m) && ReachesFrom(table, s, m.end, k)
    ensures ReachesFrom(table, s, from, k)
  {
    var path :| IsPathFrom(table, s, m.end, path, k);
    assert MentionsFrom(s, from, path[0]);
    assert IsPathFrom(table, s, from, path, k);
  }

  /** A directive naming `key` extends every chain from `key`'s entry. */
  lemma ReachesThrough(table: Table, s: string, from: nat, key: string, k: string)
    requires MentionsFrom(s, from, key) && key in table && ReachesFrom(table, table[key], 0, k)
    ensures ReachesFrom(table, s, from, k)
  {
    var path :| IsPathFrom(table, table[key], 0, path, k);
    var path' := [key] + path;
    forall i | 0 <= i < |path'| - 1
      ensures path'[i] in table && MentionsFrom(table[path'[i]], 0, path'[i + 1])
    {
      if i > 0 {
        assert path'[i] == path[i - 1] && path'[i + 1] == path[i];
      }
    }
    assert IncludeChain(table, path');
    assert IsPathFrom(table, s, from, path', k);
  }

  /** The model answers `Err(IncludeCycle(k))` only where the source never
      finishes: the shader leads to `k`, and `k` is either being expanded
      further up the stack or leads back to itself. */
  lemma {:induction false} CycleIsReal(shader: string, table: Table, visiting: set<string>, k: string)
    requires Expand(shader, table, visiting) == Err(IncludeCycle(k))
    ensures ReachesFrom(table, shader, 0, k)
    ensures k in visiting || Cyclic(table, k)
    decreases |table.Keys - visiting|, 1, 0
  {
    CycleIsRealFrom(shader, 0, table, visiting, shader, map[], k);
  }

  lemma {:induction false} CycleIsRealFrom(shader: string, from: nat, table: Table, visiting: set<string>,
                                           work: string, memo: map<string, string>, k: string)
    requires ExpandFrom(shader, from, table, visiting, work, memo) == Err(IncludeCycle(k))
    ensures ReachesFrom(table, shader, from, k)
    ensures k in visiting || Cyclic(table, k)
    decreases |table.Keys - visiting|, 0, |shader| - from
  {
    match NextMatch(shader, from)
    case None =>
    case Some(m) =>
      var key := KeyOf(m.path);
      if key !in memo && key in table {
        if key in visiting {
          assert k == key && MentionsFrom(shader, from, key);
          assert IncludeChain(table, [key]);
          assert IsPathFrom(table, shader, from, [key], k);
        } else {
          StackGrows(table.Keys, visiting, key);
          match Expand(table[key], table, visiting + {key})
          case Err(e) =>
            CycleIsReal(table[key], table, visiting + {key}, k);
            assert MentionsFrom(shader, from, key);
            ExtendCycle(shader, from, table, visiting, key, k);
          case Ok(sub) =>
            CycleIsRealFrom(shader, m.end, table, visiting, ReplaceFirst(work, m.text, sub), memo[key := sub], k);
            ReachesEarlier(table, shader, from, m, k);
        }
      } else if key in memo {
        CycleIsRealFrom(shader, m.end, table, visiting, ReplaceFirst(work, m.text, memo[key]), memo, k);
        ReachesEarlier(table, shader, from, m, k);
      } else {
        CycleIsRealFrom(shader, m.end, table, visiting, ReplaceFirst(work, m.text, ""), memo, k);
        ReachesEarlier(table, shader, from, m, k);
      }
  }

  /** A cycle answer from the entry of a directive the scan meets is a
      cycle answer for the scanned shader. */
  lemma ExtendCycle(shader: string, from: nat, table: Table, visiting: set<string>, key: string, k: string)
    requires MentionsFrom(shader, from, key) && key in table
    requires ReachesFrom(table, table[key], 0, k)
    requires k in visiting + {key} || Cyclic(table, k)
    ensures ReachesFrom(table, shader, from, k)
    ensures k in visiting || Cyclic(table, k)
  {
    ReachesThrough(table, shader, from, key, k);
  }

  /** At the top level, a cycle answer names a key that the shader reaches
      and that reaches itself. */
  lemma CycleAnswerIsCycle(shader: string, table: Table, k: string)
    requires Expand(shader, table, {}) == Err(IncludeCycle(k))
    ensures ReachesFrom(table, shader, 0, k) && Cyclic(table, k)
  {
    CycleIsReal(shader, table, {}, k);
  }

  // Key normalisation

  lemma {:induction false} StripQuotesAppend(a: string, b: string)
    ensures StripQuotes(a + b) == StripQuotes(a) + StripQuotes(b)
  {
    if a != [] {
      assert (a + b)[0] == a[0];
      assert (a + b)[1..] == a[1..] + b;
      StripQuotesAppend(a[1..], b);
      calc {
        StripQuotes(a + b);
        (if IsQuote(a[0]) then [] else [a[0]]) + StripQuotes(a[1..] + b);
        (if IsQuote(a[0]) then [] else [a[0]]) + (StripQuotes(a[1..]) + StripQuotes(b));
      }
    } else {
      assert a + b == b;
    }
  }

  lemma {:induction false} StripQuotesOnly(q: string)
    requires forall i :: 0 <= i < |q| ==> IsQuote(q[i])
    ensures StripQuotes(q) == []
  {
    if q != [] {
      StripQuotesOnly(q[1..]);
    }
  }

  lemma {:induction false} StripQuotesNone(k: string)
    requires forall i :: 0 <= i < |k| ==> !IsQuote(k[i])
    ensures StripQuotes(k) == k
  {
    if k != [] {
      StripQuotesNone(k[1..]);
    }
  }

  lemma {:induction false} LastSegmentNoSlash(k: string)
    requires forall i :: 0 <= i < |k| ==> k[i] != '/'
    ensures LastSegment(k) == k
  {
    if k != [] {
      LastSegmentNoSlash(k[..|k| - 1]);
    }
  }

  lemma {:induction false} LastSegmentAfterSlash(d: string, k: string)
    requires forall i :: 0 <= i < |k| ==> k[i] != '/'
    ensures LastSegment(d + "/" + k) == k
  {
    if k == [] {
      assert d + "/" + k == d + "/";
    } else {
      var s := d + "/" + k;
      assert s[..|s| - 1] == d + "/" + k[..|k| - 1];
      LastSegmentAfterSlash(d, k[..|k| - 1]);
    }
  }

  lemma StripSurrounding(open: string, mid: string, close: string)
    requires forall i :: 0 <= i < |open| ==> IsQuote(open[i])
    requires forall i :: 0 <= i < |close| ==> IsQuote(close[i])
    ensures StripQuotes(open + mid + close) == StripQuotes(mid)
  {
    StripQuotesOnly(open);
    StripQuotesOnly(close);
    StripQuotesAppend(open + mid, close);
    StripQuotesAppend(open, mid);
    assert [] + StripQuotes(mid) + [] == StripQuotes(mid);
  }

  lemma StripDirectory(dir: string, key: string)
    requires forall i :: 0 <= i < |key| ==> !IsQuote(key[i])
    ensures StripQuotes(dir + "/" + key) == StripQuotes(dir) + "/" + key
  {
    StripQuotesAppend(dir + "/", key);
    StripQuotesAppend(dir, "/");
    StripQuotesNone("/");
    StripQuotesNone(key);
  }

  /** The key of a quoted bare file name is that file name. */
  lemma KeyOfQuotedName(open: string, key: string, close: string)
    requires forall i :: 0 <= i < |open| ==> IsQuote(open[i])
    requires forall i :: 0 <= i < |close| ==> IsQuote(close[i])
    requires forall i :: 0 <= i < |key| ==> key[i] != '/' && !IsQuote(key[i])
    ensures KeyOf(open + key + close) == key
  {
    StripSurrounding(open, key, close);
    StripQuotesNone(key);
    LastSegmentNoSlash(key);
  }

  /** The key of a path is its last `/`-segment once quotes and angle
      brackets are gone, whatever quotes surround the path and whatever
      directory precedes the last slash. */
  lemma KeyOfQuotedPath(open: string, dir: string, key: string, close: string)
    requires forall i :: 0 <= i < |open| ==> IsQuote(open[i])
    requires forall i :: 0 <= i < |close| ==> IsQuote(close[i])
    requires forall i :: 0 <= i < |key| ==> key[i] != '/' && !IsQuote(key[i])
    ensures KeyOf(open + dir + "/" + key + close) == key
  {
    var path := open + dir + "/" + key + close;
    assert path == open + (dir + "/" + key) + close;
    StripSurrounding(open, dir + "/" + key, close);
    StripDirectory(dir, key);
    assert StripQuotes(path) == StripQuotes(dir) + "/" + key;
    LastSegmentAfterSlash(StripQuotes(dir), key);
  }

  // Memoisation is transparent: a reference expansion without a memo table,
  // which expands every directive's entry afresh, gives the same result.

  function ExpandAfresh(shader: string, table: Table, visiting: set<string>): Result<string, IncludeError>
    decreases |table.Keys - visiting|, 1, 0
  {
    ExpandAfreshFrom(shader, 0, table, visiting, shader)
  }

  function ExpandAfreshFrom(shader: string, from: nat, table: Table, visiting: set<string>,
                            work: string): Result<string, IncludeError>
    decreases |table.Keys - visiting|, 0, |shader| - from
  {
    match NextMatch(shader, from)
    case None => Ok(work)
    case Some(m) =>
      var key := KeyOf(m.path);
      if key in table then
        if key in visiting then Err(IncludeCycle(key))
        else
          StackGrows(table.Keys, visiting, key);
          match ExpandAfresh(table[key], table, visiting + {key})
          case Err(e) => Err(e)
          case Ok(sub) => ExpandAfreshFrom(shader, m.end, table, visiting, ReplaceFirst(work, m.text, sub))
      else
        ExpandAfreshFrom(shader, m.end, table, visiting, ReplaceFirst(work, m.text, ""))
  }

  /** Every memoised entry is the expansion of its table entry. */
  ghost predicate MemoSound(memo: map<string, string>, table: Table, visiting: set<string>) {
    forall k {:trigger memo[k]} :: k in memo ==>
      k in table && k !in visiting && Expand(table[k], table, visiting + {k}) == Ok(memo[k])
  }

  /** Recording a fresh expansion keeps the memo table sound. */
  lemma MemoSoundExtend(memo: map<string, string>, table: Table, visiting: set<string>, key: string, sub: string)
    requires MemoSound(memo, table, visiting)
    requires key in table && key !in visiting && Expand(table[key], table, visiting + {key}) == Ok(sub)
    ensures MemoSound(memo[key := sub], table, visiting)
  {
    var memo' := memo[key := sub];
    forall k | k in memo'
      ensures k in table && k !in visiting && Expand(table[k], table, visiting + {k}) == Ok(memo'[k])
    {
      if k != key {
        assert memo'[k] == memo[k];
      }
    }
  }

  lemma {:induction false} MemoTransparent(shader: string, table: Table, visiting: set<string>)
    ensures Expand(shader, table, visiting) == ExpandAfresh(shader, table, visiting)
    decreases |table.Keys - visiting|, 1, 0
  {
    MemoTransparentFrom(shader, 0, table, visiting, shader, map[]);
  }

  lemma {:induction false} MemoTransparentFrom(shader: string, from: nat, table: Table, visiting: set<string>,
                                               work: string, memo: map<string, string>)
    requires MemoSound(memo, table, visiting)
    ensures ExpandFrom(shader, from, table, visiting, work, memo)
         == ExpandAfreshFrom(shader, from, table, visiting, work)
    decreases |table.Keys - visiting|, 0, |shader| - from
  {
    var next := NextMatch(shader, from);
    if next.Some? {
      var m := next.value;
      var key := KeyOf(m.path);
      if key !in table {
        assert key !in memo;
        var w := ReplaceFirst(work, m.text, "");
        assert ExpandFrom(shader, from, table, visiting, work, memo) == ExpandFrom(shader, m.end, table, visiting, w, memo);
        assert ExpandAfreshFrom(shader, from, table, visiting, work) == ExpandAfreshFrom(shader, m.end, table, visiting, w);
        MemoTransparentFrom(shader, m.end, table, visiting, w, memo);
      } else if key !in visiting {
        StackGrows(table.Keys, visiting, key);
        var sub := Expand(table[key], table, visiting + {key});
        MemoTransparent(table[key], table, visiting + {key});
        if key in memo {
          var w := ReplaceFirst(work, m.text, memo[key]);
          assert ExpandFrom(shader, from, table, visiting, work, memo) == ExpandFrom(shader, m.end, table, visiting, w, memo);
          assert ExpandAfreshFrom(shader, from, table, visiting, work) == ExpandAfreshFrom(shader, m.end, table, visiting, w);
          MemoTransparentFrom(shader, m.end, table, visiting, w, memo);
        } else if sub.Ok? {
          var w := ReplaceFirst(work, m.text, sub.value);
          var memo' := memo[key := sub.value];
          MemoSoundExtend(memo, table, visiting, key, sub.value);
          assert ExpandFrom(shader, from, table, visiting, work, memo) == ExpandFrom(shader, m.end, table, visiting, w, memo');
          assert ExpandAfreshFrom(shader, from, table, visiting, work) == ExpandAfreshFrom(shader, m.end, table, visiting, w);
          MemoTransparentFrom(shader, m.end, table, visiting, w, memo');
        }
      } else {
        assert key !in memo;
      }
    }
  }
}
