/**
 * The pipeline dashboard (dashboard.py): classifying a scheduler job by its
 * name, recognising language directories, parsing the captured output of the
 * queue listing, the job details and the collection list, and bucketing jobs
 * into the language × collection grid. The commands themselves (`squeue`,
 * `scontrol`, `bash`) and the filesystem are not modelled: their output is
 * given as lines of text.
 */
module Dashboard {
  import opened Base

  // ---------------------------------------------------------------- Job

  /** The three dash-separated parts of a job name. */
  datatype Classification = Classification(step: string, language: string, collection: string)

  /** A job: the mapping it was built from, and its classification if its name has one. */
  datatype Job = Job(fields: map<string, string>, classification: Option<Classification>)

  /** The name a classification was split from. */
  function Rejoin(c: Classification): string {
    c.step + "-" + c.language + "-" + c.collection
  }

  /** `name.split('-', maxsplit=2)` for a name with at least two dashes. */
  function SplitDashes(name: string): (r: Classification)
    requires Count(name, '-') >= 2
    ensures !Contains(r.step, '-') && !Contains(r.language, '-')
    ensures Rejoin(r) == name
  {
    FindSecond(name, '-');
    var i := FindChar(name, '-', 0);
    var j := FindChar(name, '-', i + 1);
    var step, language, collection := name[..i], name[i + 1..j], name[j + 1..];
    assert !Contains(step, '-') by {
      forall k | 0 <= k < |step| ensures step[k] != '-' { assert step[k] == name[k]; }
    }
    assert !Contains(language, '-') by {
      forall k | 0 <= k < |language| ensures language[k] != '-' { assert language[k] == name[i + 1 + k]; }
    }
    assert name == step + "-" + language + "-" + collection;
    Classification(step, language, collection)
  }

  /** `key` is present and its value holds at least two dashes. */
  predicate Qualifies(fields: map<string, string>, key: string) {
    key in fields && Count(fields[key], '-') >= 2
  }

  /**
   * The classification `Job.__init__` derives: from `NAME` if it qualifies,
   * otherwise from `JobName` if that qualifies, otherwise none. The step and
   * language hold no dash, and the three parts rejoin to the chosen name.
   */
  function Classify(fields: map<string, string>): (r: Option<Classification>)
    ensures r.None? <==> !Qualifies(fields, "NAME") && !Qualifies(fields, "JobName")
    ensures r.Some? && Qualifies(fields, "NAME") ==> Rejoin(r.value) == fields["NAME"]
    ensures r.Some? && !Qualifies(fields, "NAME") ==> Rejoin(r.value) == fields["JobName"]
    ensures r.Some? ==> !Contains(r.value.step, '-') && !Contains(r.value.language, '-')
  {
    if Qualifies(fields, "NAME") then Some(SplitDashes(fields["NAME"]))
    else if Qualifies(fields, "JobName") then Some(SplitDashes(fields["JobName"]))
    else None
  }

  /**
   * `Job(mapping)`: the mapping is kept as it is, and the job is classified
   * exactly when `NAME` or `JobName` holds two dashes, by the first that does.
   */
  function NewJob(fields: map<string, string>): (j: Job)
    ensures j.fields == fields
    ensures j.classification.None? <==> !Qualifies(fields, "NAME") && !Qualifies(fields, "JobName")
    ensures j.classification.Some? ==>
              Rejoin(j.classification.value) == (if Qualifies(fields, "NAME") then fields["NAME"] else fields["JobName"])
  {
    Job(fields, Classify(fields))
  }

  // ---------------------------------------------------------------- character classes

  predicate IsLower(c: char) { 'a' <= c <= 'z' }
  predicate IsUpper(c: char) { 'A' <= c <= 'Z' }
  predicate IsLetter(c: char) { IsLower(c) || IsUpper(c) }
  /** `\w` on ASCII text. */
  predicate IsWordChar(c: char) { IsLetter(c) || '0' <= c <= '9' || c == '_' }
  /** `[A-Za-z_\/:]`, the characters after the first of a detail key. */
  predicate IsKeyChar(c: char) { IsLetter(c) || c == '_' || c == '/' || c == ':' }

  /** The character classes the patterns repeat. */
  datatype CharClass = Lower | Letter | KeyChar | NonSpace

  predicate InClass(c: char, cls: CharClass) {
    match cls
    case Lower => IsLower(c)
    case Letter => IsLetter(c)
    case KeyChar => IsKeyChar(c)
    case NonSpace => !IsSpace(c)
  }

  /** The length of the longest run of characters of class `cls` that starts at `i`. */
  function Run(s: string, i: nat, cls: CharClass): (n: nat)
    requires i <= |s|
    decreases |s| - i
    ensures i + n <= |s|
    ensures forall k :: i <= k < i + n ==> InClass(s[k], cls)
    ensures i + n == |s| || !InClass(s[i + n], cls)
  {
    if i < |s| && InClass(s[i], cls) then 1 + Run(s, i + 1, cls) else 0
  }

  /** A run is determined by where it stops. */
  lemma RunUnique(s: string, i: nat, cls: CharClass, n: nat)
    requires i + n <= |s|
    requires forall k :: i <= k < i + n ==> InClass(s[k], cls)
    requires i + n == |s| || !InClass(s[i + n], cls)
    ensures Run(s, i, cls) == n
  {
    var r := Run(s, i, cls);
    if r < n {
      assert false;
    } else if r > n {
      assert false;
    }
  }

  // ---------------------------------------------------------------- language names

  /** What `$` accepts after the pattern: the end of the name, or one final newline. */
  predicate AtEnd(t: string) { |t| == 0 || t == "\n" }

  /**
   * The scanner for `^[a-z]{1,2}(\-[a-zA-Z]+)?$`: one or two lowercase
   * letters (a third one cannot match), then optionally a dash and a run of
   * letters, then the end.
   */
  function IsLanguageName(s: string): bool {
    var n := Run(s, 0, Lower);
    if n < 1 || n > 2 then false
    else if AtEnd(s[n..]) then true
    else if s[n] == '-' then
      var m := Run(s, n + 1, Letter);
      m >= 1 && AtEnd(s[n + 1 + m..])
    else false
  }

  /** `s` is `n` lowercase letters, optionally followed by a dash and at least one letter. */
  predicate LanguageShape(s: string, n: nat) {
    && 1 <= n <= 2 && n <= |s|
    && (forall k :: 0 <= k < n ==> IsLower(s[k]))
    && (n == |s| || (s[n] == '-' && n + 2 <= |s| && forall k :: n < k < |s| ==> IsLetter(s[k])))
  }

  /** The names the pattern accepts, written out: the shape, possibly followed by one newline. */
  predicate LanguageName(s: string) {
    || LanguageShape(s, 1) || LanguageShape(s, 2)
    || (|s| > 0 && s[|s| - 1] == '\n'
        && (LanguageShape(s[..|s| - 1], 1) || LanguageShape(s[..|s| - 1], 2)))
  }

  /** The scanner accepts exactly the names the pattern describes. */
  lemma LanguageNameExact(s: string)
    ensures IsLanguageName(s) <==> LanguageName(s)
  {
    if IsLanguageName(s) {
      LanguageNameSound(s);
    }
    if LanguageName(s) {
      if LanguageShape(s, 1) || LanguageShape(s, 2) {
        var n := if LanguageShape(s, 1) then 1 else 2;
        LanguageNameComplete(s, s, n);
      } else {
        var t := s[..|s| - 1];
        var n := if LanguageShape(t, 1) then 1 else 2;
        LanguageNameComplete(s, t, n);
      }
    }
  }

  lemma LanguageNameSound(s: string)
    requires IsLanguageName(s)
    ensures LanguageName(s)
  {
    var n := Run(s, 0, Lower);
    var t := s[..|s| - 1];
    if AtEnd(s[n..]) {
      if |s[n..]| == 0 {
        assert LanguageShape(s, n);
      } else {
        assert s[n] == '\n' && |s| == n + 1;
        assert LanguageShape(t, n);
      }
    } else {
      var m := Run(s, n + 1, Letter);
      if |s[n + 1 + m..]| == 0 {
        assert LanguageShape(s, n);
      } else {
        assert |s| == n + 2 + m && s[|s| - 1] == '\n';
        assert LanguageShape(t, n);
      }
    }
  }

  lemma LanguageNameComplete(s: string, t: string, n: nat)
    requires t == s || (|s| > 0 && s[|s| - 1] == '\n' && t == s[..|s| - 1])
    requires LanguageShape(t, n)
    ensures IsLanguageName(s)
  {
    assert forall k :: 0 <= k < |t| ==> s[k] == t[k];
    RunUnique(s, 0, Lower, n);
    if n < |t| {
      var m := |t| - n - 1;
      RunUnique(s, n + 1, Letter, m);
      assert s[n + 1 + m..] == s[|t|..];
    } else {
      assert s[n..] == s[|t|..];
    }
  }

  /** A directory entry under a collection's shard directory. */
  datatype DirEntry = DirEntry(name: string, isDir: bool)

  /**
   * `Collection.languages`: no languages when the shard directory is
   * missing, otherwise the names of the sub-directories that are language
   * names.
   */
  function Languages(shardsExist: bool, entries: seq<DirEntry>): (r: set<string>)
    ensures forall name :: name in r <==>
      shardsExist && LanguageName(name) && DirEntry(name, true) in entries
  {
    var r := if !shardsExist then {}
             else set e | e in entries && e.isDir && IsLanguageName(e.name) :: e.name;
    assert forall name :: name in r <==>
      shardsExist && LanguageName(name) && DirEntry(name, true) in entries by {
      forall name ensures name in r <==> shardsExist && LanguageName(name) && DirEntry(name, true) in entries {
        LanguageNameExact(name);
        if shardsExist && name in r {
          var e :| e in entries && e.isDir && IsLanguageName(e.name) && e.name == name;
          assert e == DirEntry(name, true);
        }
      }
    }
    r
  }

  // ---------------------------------------------------------------- squeue listing

  function Min(a: nat, b: nat): nat { if a <= b then a else b }

  /** `dict(zip(keys, values))` over the first `n` pairs: later keys overwrite earlier ones. */
  function ZipPrefix(keys: seq<string>, values: seq<string>, n: nat): map<string, string>
    requires n <= |keys| && n <= |values|
  {
    if n == 0 then map[] else ZipPrefix(keys, values, n - 1)[keys[n - 1] := values[n - 1]]
  }

  /** `dict(zip(keys, values))`: pairs as many as the shorter side holds. */
  function ZipDict(keys: seq<string>, values: seq<string>): map<string, string> {
    ZipPrefix(keys, values, Min(|keys|, |values|))
  }

  /**
   * The keys of `zip`'s dictionary are the headers that are paired with a
   * value, and a header that repeats keeps the value of its last column.
   */
  lemma {:induction false} ZipLastWins(keys: seq<string>, values: seq<string>, n: nat)
    requires n <= |keys| && n <= |values|
    ensures forall key :: key in ZipPrefix(keys, values, n) <==> key in keys[..n]
    ensures forall i :: 0 <= i < n && (forall j :: i < j < n ==> keys[j] != keys[i]) ==>
      ZipPrefix(keys, values, n)[keys[i]] == values[i]
  {
    if n > 0 {
      ZipLastWins(keys, values, n - 1);
      assert keys[..n] == keys[..n - 1] + [keys[n - 1]];
    }
  }

  datatype QueueError = NoHeaderLine

  /** One line of the listing after the header: its fields paired with the headers, as a job. */
  function QueueRow(headers: seq<string>, line: string): Job {
    NewJob(ZipDict(headers, Split(Strip(line), '|')))
  }

  /**
   * `Slurm.jobs` on the lines of the queue listing: the first line's
   * `|`-separated fields are the headers, and every later line becomes one
   * job whose fields are paired with the headers by position. Without a
   * first line, indexing it fails.
   */
  function ParseQueue(lines: seq<string>): (r: Result<seq<Job>, QueueError>)
    ensures r.Err? <==> |lines| == 0
    ensures r.Ok? ==> |r.value| == |lines| - 1
    ensures r.Ok? ==> forall i :: 0 <= i < |r.value| ==>
      r.value[i] == QueueRow(Split(Strip(lines[0]), '|'), lines[i + 1])
  {
    if |lines| == 0 then Err(NoHeaderLine)
    else
      var headers := Split(Strip(lines[0]), '|');
      Ok(seq(|lines| - 1, i requires 0 <= i < |lines| - 1 => QueueRow(headers, lines[i + 1])))
  }

  // ---------------------------------------------------------------- scontrol details

  /** One match of the detail pattern: the key is `[start, keyEnd)`, the value `(keyEnd, valueEnd)`. */
  datatype Match = Match(start: nat, keyEnd: nat, valueEnd: nat)

  /**
   * `\b(?P<key>[A-Z][A-Za-z_\/:]+)=(?P<value>[^\s]+)` tried at position `p`:
   * a word boundary, an uppercase letter and at least one key character,
   * `=`, and the longest non-empty run of non-space characters.
   */
  function MatchAt(line: string, p: nat): (r: Option<Match>)
    requires p <= |line|
    ensures r.Some? ==> r.value.start == p && p + 1 < r.value.keyEnd < r.value.valueEnd - 1
                        && r.value.valueEnd <= |line|
  {
    if p < |line| && IsUpper(line[p]) && (p == 0 || !IsWordChar(line[p - 1])) then
      var keyEnd := p + 1 + Run(line, p + 1, KeyChar);
      if keyEnd > p + 1 && keyEnd < |line| && line[keyEnd] == '=' then
        var valueEnd := keyEnd + 1 + Run(line, keyEnd + 1, NonSpace);
        if valueEnd > keyEnd + 1 then Some(Match(p, keyEnd, valueEnd)) else None
      else None
    else None
  }

  /** A match of the detail pattern written out: where the key and the value start and stop. */
  predicate IsMatch(line: string, m: Match) {
    && m.start + 1 < m.keyEnd < m.valueEnd - 1 && m.valueEnd <= |line|
    && (m.start == 0 || !IsWordChar(line[m.start - 1]))
    && IsUpper(line[m.start])
    && (forall k :: m.start < k < m.keyEnd ==> IsKeyChar(line[k]))
    && line[m.keyEnd] == '='
    && (forall k :: m.keyEnd < k < m.valueEnd ==> !IsSpace(line[k]))
    && (m.valueEnd == |line| || IsSpace(line[m.valueEnd]))
  }

  /** What the scanner finds at `p` is a match of the pattern. */
  lemma MatchAtSound(line: string, p: nat)
    requires p <= |line|
    ensures MatchAt(line, p).Some? ==> IsMatch(line, MatchAt(line, p).value)
  {
  }

  /** A match of the pattern at its start is what the scanner finds there. */
  lemma MatchAtComplete(line: string, m: Match)
    requires IsMatch(line, m)
    ensures MatchAt(line, m.start) == Some(m)
  {
    var p := m.start;
    RunUnique(line, p + 1, KeyChar, m.keyEnd - p - 1);
    var keyEnd := p + 1 + Run(line, p + 1, KeyChar);
    assert keyEnd == m.keyEnd && line[keyEnd] == '=';
    RunUnique(line, keyEnd + 1, NonSpace, m.valueEnd - keyEnd - 1);
    var valueEnd := keyEnd + 1 + Run(line, keyEnd + 1, NonSpace);
    assert valueEnd == m.valueEnd;
    MatchAtSteps(line, p, keyEnd, valueEnd);
  }

  /** The scanner's steps at `p`, each taken. */
  lemma MatchAtSteps(line: string, p: nat, keyEnd: nat, valueEnd: nat)
    requires p < |line| && IsUpper(line[p]) && (p == 0 || !IsWordChar(line[p - 1]))
    requires p + 1 < keyEnd < |line| && keyEnd == p + 1 + Run(line, p + 1, KeyChar) && line[keyEnd] == '='
    requires keyEnd + 1 < valueEnd && valueEnd == keyEnd + 1 + Run(line, keyEnd + 1, NonSpace)
    ensures MatchAt(line, p) == Some(Match(p, keyEnd, valueEnd))
  {
  }

  /** The scanner finds a match at `p` exactly when the pattern matches there. */
  lemma MatchAtExact(line: string, m: Match)
    requires m.start <= |line|
    ensures MatchAt(line, m.start) == Some(m) <==> IsMatch(line, m)
  {
    MatchAtSound(line, m.start);
    if IsMatch(line, m) {
      MatchAtComplete(line, m);
    }
  }

  /** `re.finditer`'s next step: the first match starting at or after `from`. */
  function NextMatch(line: string, from: nat): (r: Option<Match>)
    requires from <= |line|
    decreases |line| - from
    ensures r.Some? ==> from <= r.value.start <= |line| && MatchAt(line, r.value.start) == r
  {
    if from == |line| then None
    else if MatchAt(line, from).Some? then MatchAt(line, from)
    else NextMatch(line, from + 1)
  }

  /** No match of the detail pattern starts in `[from, to)`. */
  predicate NoMatchIn(line: string, from: nat, to: nat)
    requires to <= |line| + 1
  {
    forall p :: from <= p < to ==> MatchAt(line, p).None?
  }

  /** `NextMatch` skips no match: none starts between `from` and what it returns. */
  lemma {:induction false} NextMatchFirst(line: string, from: nat)
    requires from <= |line|
    decreases |line| - from
    ensures NextMatch(line, from).None? ==> NoMatchIn(line, from, |line| + 1)
    ensures NextMatch(line, from).Some? ==> NoMatchIn(line, from, NextMatch(line, from).value.start)
  {
    if from < |line| && MatchAt(line, from).None? {
      var next := NextMatch(line, from + 1);
      assert NextMatch(line, from) == next;
      NextMatchFirst(line, from + 1);
      NoMatchStep(line, from, if next.None? then |line| + 1 else next.value.start);
    }
  }

  /** A position without a match extends a stretch without matches to its left. */
  lemma NoMatchStep(line: string, from: nat, to: nat)
    requires from < to <= |line| + 1 && from < |line|
    requires MatchAt(line, from).None? && NoMatchIn(line, from + 1, to)
    ensures NoMatchIn(line, from, to)
  {
  }

  /**
   * The assignments one line of `scontrol` output makes, in order: each
   * match sets its key to its value, except that `Command` takes the rest of
   * the line after `=` and ends the line's scan.
   */
  function LineAssignments(line: string, from: nat): seq<(string, string)>
    requires from <= |line|
    decreases |line| - from
  {
    match NextMatch(line, from)
    case None => []
    case Some(m) =>
      var key := line[m.start..m.keyEnd];
      if key == "Command" then [(key, line[m.keyEnd + 1..])]
      else [(key, line[m.keyEnd + 1..m.valueEnd])] + LineAssignments(line, m.valueEnd)
  }

  /** A key the detail pattern accepts: an uppercase letter and at least one key character. */
  predicate IsDetailKey(key: string) {
    |key| >= 2 && IsUpper(key[0]) && forall k :: 1 <= k < |key| ==> IsKeyChar(key[k])
  }

  /** A value the detail pattern accepts: a non-empty run without spaces. */
  predicate IsDetailValue(value: string) {
    |value| > 0 && forall k :: 0 <= k < |value| ==> !IsSpace(value[k])
  }

  /** An assignment the pattern can produce: `Command` takes the rest of the line, whatever it is. */
  predicate WellFormedAssignment(a: (string, string)) {
    IsDetailKey(a.0) && (a.0 != "Command" ==> IsDetailValue(a.1))
  }

  /** Every assignment is well formed, and only the last may be `Command`'s. */
  predicate WellFormedLine(a: seq<(string, string)>) {
    forall i :: 0 <= i < |a| ==> WellFormedAssignment(a[i]) && (a[i].0 == "Command" ==> i == |a| - 1)
  }

  /**
   * Every assignment of a line has a well-formed key; every value other
   * than `Command`'s is a non-empty run without spaces; a `Command`
   * assignment is the line's last.
   */
  lemma {:induction false} AssignmentsWellFormed(line: string, from: nat)
    requires from <= |line|
    decreases |line| - from
    ensures WellFormedLine(LineAssignments(line, from))
  {
    match NextMatch(line, from)
    case None =>
    case Some(m) =>
      MatchWellFormed(line, m);
      var key := line[m.start..m.keyEnd];
      if key == "Command" {
        assert LineAssignments(line, from) == [(key, line[m.keyEnd + 1..])];
      } else {
        AssignmentsWellFormed(line, m.valueEnd);
        ConsWellFormed((key, line[m.keyEnd + 1..m.valueEnd]), LineAssignments(line, m.valueEnd));
      }
  }

  /** The key and the value of a match are what the pattern accepts. */
  lemma MatchWellFormed(line: string, m: Match)
    requires m.start <= |line| && MatchAt(line, m.start) == Some(m)
    ensures IsDetailKey(line[m.start..m.keyEnd]) && IsDetailValue(line[m.keyEnd + 1..m.valueEnd])
  {
    MatchAtSound(line, m.start);
    var key := line[m.start..m.keyEnd];
    forall k | 1 <= k < |key| ensures IsKeyChar(key[k]) { assert key[k] == line[m.start + k]; }
    var value := line[m.keyEnd + 1..m.valueEnd];
    forall k | 0 <= k < |value| ensures !IsSpace(value[k]) { assert value[k] == line[m.keyEnd + 1 + k]; }
  }

  /** A well-formed assignment other than `Command`'s can precede a well-formed line. */
  lemma ConsWellFormed(p: (string, string), rest: seq<(string, string)>)
    requires WellFormedAssignment(p) && p.0 != "Command" && WellFormedLine(rest)
    ensures WellFormedLine([p] + rest)
  {
    var a := [p] + rest;
    forall i | 0 <= i < |a| ensures WellFormedAssignment(a[i]) && (a[i].0 == "Command" ==> i == |a| - 1) {
      if i > 0 {
        assert a[i] == rest[i - 1];
      }
    }
  }

  /** Applies assignments in order: later ones overwrite earlier ones. */
  function Apply(m: map<string, string>, ps: seq<(string, string)>): map<string, string>
    decreases |ps|
  {
    if |ps| == 0 then m else Apply(m[ps[0].0 := ps[0].1], ps[1..])
  }

  /**
   * After applying assignments, a key holds the value of its last
   * assignment, and a key never assigned keeps what it had.
   */
  lemma {:induction false} ApplyLastWins(m: map<string, string>, ps: seq<(string, string)>)
    decreases |ps|
    ensures forall i :: 0 <= i < |ps| && (forall j :: i < j < |ps| ==> ps[j].0 != ps[i].0) ==>
      ps[i].0 in Apply(m, ps) && Apply(m, ps)[ps[i].0] == ps[i].1
    ensures forall key :: (forall j :: 0 <= j < |ps| ==> ps[j].0 != key) ==>
      (key in Apply(m, ps) <==> key in m) && (key in m ==> Apply(m, ps)[key] == m[key])
  {
    if |ps| > 0 {
      var m' := m[ps[0].0 := ps[0].1];
      ApplyLastWins(m', ps[1..]);
      forall i | 0 <= i < |ps| && (forall j :: i < j < |ps| ==> ps[j].0 != ps[i].0)
        ensures ps[i].0 in Apply(m, ps) && Apply(m, ps)[ps[i].0] == ps[i].1
      {
        if i > 0 {
          assert ps[i] == ps[1..][i - 1];
          assert forall j :: i - 1 < j < |ps| - 1 ==> ps[1..][j].0 != ps[1..][i - 1].0 by {
            forall j | i - 1 < j < |ps| - 1 ensures ps[1..][j].0 != ps[1..][i - 1].0 {
              assert ps[1..][j] == ps[j + 1];
            }
          }
        } else {
          assert forall j :: 0 <= j < |ps| - 1 ==> ps[1..][j].0 != ps[0].0 by {
            forall j | 0 <= j < |ps| - 1 ensures ps[1..][j].0 != ps[0].0 { assert ps[1..][j] == ps[j + 1]; }
          }
        }
      }
      forall key | (forall j :: 0 <= j < |ps| ==> ps[j].0 != key)
        ensures (key in Apply(m, ps) <==> key in m) && (key in m ==> Apply(m, ps)[key] == m[key])
      {
        assert ps[0].0 != key;
        assert forall j :: 0 <= j < |ps| - 1 ==> ps[1..][j].0 != key by {
          forall j | 0 <= j < |ps| - 1 ensures ps[1..][j].0 != key { assert ps[1..][j] == ps[j + 1]; }
        }
      }
    }
  }

  /** The fields the first `n` lines of `scontrol` output set. */
  function Details(lines: seq<string>, n: nat): map<string, string>
    requires n <= |lines|
  {
    if n == 0 then map[] else Apply(Details(lines, n - 1), LineAssignments(lines[n - 1], 0))
  }

  /**
   * `Slurm.job` on the lines of `scontrol` output: every line is scanned for
   * `Key=value` matches from left to right, each setting its key, until a
   * `Command` key takes the rest of its line.
   */
  method ParseJobDetails(lines: seq<string>) returns (job: Job)
    ensures job == NewJob(Details(lines, |lines|))
  {
    var fields: map<string, string> := map[];
    for i := 0 to |lines|
      invariant fields == Details(lines, i)
    {
      fields := ScanLine(fields, lines[i]);
    }
    job := NewJob(fields);
  }

  /** The scan of `line` from `pos` on, as `Slurm.job` performs it, applied to `fields`. */
  function ScanFrom(fields: map<string, string>, line: string, pos: nat): map<string, string>
    requires pos <= |line|
    decreases |line| - pos
  {
    var r := NextMatch(line, pos);
    if r.None? then fields
    else
      var key := line[r.value.start..r.value.keyEnd];
      if key == "Command" then fields[key := line[r.value.keyEnd + 1..]]
      else ScanFrom(fields[key := line[r.value.keyEnd + 1..r.value.valueEnd]], line, r.value.valueEnd)
  }

  /** Scanning a line applies its assignments in order. */
  lemma {:induction false} ScanFromApplies(fields: map<string, string>, line: string, pos: nat)
    requires pos <= |line|
    decreases |line| - pos
    ensures ScanFrom(fields, line, pos) == Apply(fields, LineAssignments(line, pos))
  {
    var r := NextMatch(line, pos);
    var a := LineAssignments(line, pos);
    if r.Some? {
      var m := r.value;
      var key := line[m.start..m.keyEnd];
      if key == "Command" {
        assert |a| == 1 && a[0] == ("Command", line[m.keyEnd + 1..]);
        assert |a[1..]| == 0;
        assert Apply(fields, a) == Apply(fields["Command" := line[m.keyEnd + 1..]], a[1..]);
      } else {
        var value := line[m.keyEnd + 1..m.valueEnd];
        assert |a| > 0 && a[0] == (key, value);
        assert a[1..] == LineAssignments(line, m.valueEnd);
        ScanFromApplies(fields[key := value], line, m.valueEnd);
      }
    }
  }

  /** One line of `Slurm.job`'s scan: the matches of the line, applied to `fields` in order. */
  method ScanLine(fields: map<string, string>, line: string) returns (result: map<string, string>)
    ensures result == Apply(fields, LineAssignments(line, 0))
  {
    ScanFromApplies(fields, line, 0);
    result := fields;
    var pos := 0;
    while true
      invariant pos <= |line|
      invariant ScanFrom(result, line, pos) == ScanFrom(fields, line, 0)
      decreases |line| - pos
    {
      var m := NextMatch(line, pos);
      if m.None? {
        assert ScanFrom(result, line, pos) == result;
        break;
      }
      var key := line[m.value.start..m.value.keyEnd];
      if key == "Command" {
        assert ScanFrom(result, line, pos) == result[key := line[m.value.keyEnd + 1..]];
        result := result[key := line[m.value.keyEnd + 1..]];
        break;
      }
      var value := line[m.value.keyEnd + 1..m.value.valueEnd];
      assert ScanFrom(result, line, pos) == ScanFrom(result[key := value], line, m.value.valueEnd);
      result := result[key := value];
      pos := m.value.valueEnd;
    }
  }

  // ---------------------------------------------------------------- read_collections

  /** A collection: the path of its data. */
  datatype Collection = Collection(path: string)

  datatype CollectionsError = NoTab(line: nat)

  /** The text before the first tab (the whole line if there is none). */
  function NameOf(line: string): string {
    var i := FindChar(line, '\t', 0);
    if i == -1 then line else line[..i]
  }

  /** The text after the first tab. */
  function PathOf(line: string): string {
    var i := FindChar(line, '\t', 0);
    if i == -1 then "" else line[i + 1..]
  }

  /** A line with a tab is its name, a tab and its path; the name holds no tab. */
  lemma NamePathSplit(line: string)
    requires Contains(line, '\t')
    ensures NameOf(line) + "\t" + PathOf(line) == line
    ensures !Contains(NameOf(line), '\t')
  {
    var i := FindChar(line, '\t', 0);
    assert i != -1;
    assert line == line[..i] + "\t" + line[i + 1..];
    forall k | 0 <= k < |line[..i]| ensures line[..i][k] != '\t' { }
  }

  /** No later line among the first `n` has the same name as line `k`. */
  predicate LastNamed(lines: seq<string>, k: nat, n: nat)
    requires k < n <= |lines|
  {
    forall k' :: k < k' < n ==> NameOf(lines[k']) != NameOf(lines[k])
  }

  /** The first line at or after `from` without a tab, or `|lines|` when every line has one. */
  function FirstNoTab(lines: seq<string>, from: nat): (i: nat)
    requires from <= |lines|
    ensures from <= i <= |lines|
    ensures i < |lines| ==> !Contains(lines[i], '\t')
    ensures forall k :: from <= k < i ==> Contains(lines[k], '\t')
    decreases |lines| - from
  {
    if from == |lines| || !Contains(lines[from], '\t') then from else FirstNoTab(lines, from + 1)
  }

  /** `collections` maps the names of the first `n` lines, each to the path of its last line. */
  ghost predicate Collected(collections: map<string, Collection>, lines: seq<string>, n: nat)
    requires n <= |lines|
  {
    && (forall name :: name in collections <==> exists k :: 0 <= k < n && NameOf(lines[k]) == name)
    && (forall k :: 0 <= k < n && LastNamed(lines, k, n) ==>
          NameOf(lines[k]) in collections && collections[NameOf(lines[k])] == Collection(PathOf(lines[k])))
  }

  /** Storing line `n` under its name keeps `Collected`. */
  lemma CollectedStep(collections: map<string, Collection>, lines: seq<string>, n: nat)
    requires n < |lines| && Collected(collections, lines, n)
    ensures Collected(collections[NameOf(lines[n]) := Collection(PathOf(lines[n]))], lines, n + 1)
  {
    CollectedKeys(collections, lines, n);
    CollectedValues(collections, lines, n);
  }

  lemma CollectedKeys(collections: map<string, Collection>, lines: seq<string>, n: nat)
    requires n < |lines|
    requires forall name :: name in collections <==> exists k :: 0 <= k < n && NameOf(lines[k]) == name
    ensures var next := collections[NameOf(lines[n]) := Collection(PathOf(lines[n]))];
      forall name :: name in next <==> exists k :: 0 <= k < n + 1 && NameOf(lines[k]) == name
  {
    var next := collections[NameOf(lines[n]) := Collection(PathOf(lines[n]))];
    forall name ensures name in next <==> exists k :: 0 <= k < n + 1 && NameOf(lines[k]) == name {
      if name == NameOf(lines[n]) {
        assert NameOf(lines[n]) == name;
      } else if exists k :: 0 <= k < n + 1 && NameOf(lines[k]) == name {
        var k :| 0 <= k < n + 1 && NameOf(lines[k]) == name;
        assert k < n;
      }
    }
  }

  lemma CollectedValues(collections: map<string, Collection>, lines: seq<string>, n: nat)
    requires n < |lines|
    requires forall k :: 0 <= k < n && LastNamed(lines, k, n) ==>
      NameOf(lines[k]) in collections && collections[NameOf(lines[k])] == Collection(PathOf(lines[k]))
    ensures var next := collections[NameOf(lines[n]) := Collection(PathOf(lines[n]))];
      forall k :: 0 <= k < n + 1 && LastNamed(lines, k, n + 1) ==>
        NameOf(lines[k]) in next && next[NameOf(lines[k])] == Collection(PathOf(lines[k]))
  {
    var next := collections[NameOf(lines[n]) := Collection(PathOf(lines[n]))];
    forall k | 0 <= k < n + 1 && LastNamed(lines, k, n + 1)
      ensures NameOf(lines[k]) in next && next[NameOf(lines[k])] == Collection(PathOf(lines[k]))
    {
      if k < n {
        assert LastNamed(lines, k, n);
        assert NameOf(lines[n]) != NameOf(lines[k]);
      }
    }
  }

  /**
   * `read_collections` on the lines the configuration script printed: each
   * line splits at its first tab into a name and a path, a later line with
   * the same name replaces an earlier one, and the first line without a tab
   * fails the unpacking.
   */
  method ReadCollections(lines: seq<string>) returns (r: Result<map<string, Collection>, CollectionsError>)
    ensures r.Err? <==> FirstNoTab(lines, 0) < |lines|
    ensures r.Err? ==> r.error.line == FirstNoTab(lines, 0)
    ensures r.Ok? ==> Collected(r.value, lines, |lines|)
  {
    var collections: map<string, Collection> := map[];
    for i := 0 to |lines|
      invariant FirstNoTab(lines, i) == FirstNoTab(lines, 0)
      invariant Collected(collections, lines, i)
    {
      if !Contains(lines[i], '\t') {
        return Err(NoTab(i));
      }
      CollectedStep(collections, lines, i);
      collections := collections[NameOf(lines[i]) := Collection(PathOf(lines[i]))];
    }
    return Ok(collections);
  }

  /** Some line lacks a tab exactly when `FirstNoTab` finds one. */
  lemma NoTabExists(lines: seq<string>)
    ensures FirstNoTab(lines, 0) < |lines| <==> exists k :: 0 <= k < |lines| && !Contains(lines[k], '\t')
  {
  }

  // ---------------------------------------------------------------- index grid

  datatype KeyError = KeyError(key: string)

  /** A classified job whose language or collection has no cell in the grid. */
  predicate Misplaced(job: Job, languages: set<string>, names: set<string>) {
    job.classification.Some?
    && (job.classification.value.language !in languages || job.classification.value.collection !in names)
  }

  /** The key whose lookup fails first for a misplaced job. */
  function MissingKey(job: Job, languages: set<string>): string
    requires job.classification.Some?
  {
    var c := job.classification.value;
    if c.language !in languages then c.language else c.collection
  }

  /** The jobs among the first `n` classified into `language` and `collection`, in order. */
  function Placed(jobs: seq<Job>, n: nat, language: string, collection: string): seq<Job>
    requires n <= |jobs|
  {
    if n == 0 then []
    else
      var c := jobs[n - 1].classification;
      Placed(jobs, n - 1, language, collection)
      + (if c.Some? && c.value.language == language && c.value.collection == collection then [jobs[n - 1]] else [])
  }

  /** Every cell of the grid: the given languages × the given collection names. */
  predicate GridShape(grid: map<string, map<string, seq<Job>>>, languages: set<string>, names: set<string>) {
    grid.Keys == languages && forall l :: l in grid ==> grid[l].Keys == names
  }

  /** The first misplaced job at or after `from`, or `|jobs|` when there is none. */
  function FirstMisplaced(jobs: seq<Job>, from: nat, languages: set<string>, names: set<string>): (i: nat)
    requires from <= |jobs|
    ensures from <= i <= |jobs|
    ensures i < |jobs| ==> Misplaced(jobs[i], languages, names)
    ensures forall k :: from <= k < i ==> !Misplaced(jobs[k], languages, names)
    decreases |jobs| - from
  {
    if from == |jobs| || Misplaced(jobs[from], languages, names) then from
    else FirstMisplaced(jobs, from + 1, languages, names)
  }

  /** The grid `index` starts from: an empty list in every cell. */
  function EmptyGrid(languages: set<string>, names: set<string>): (grid: map<string, map<string, seq<Job>>>)
    ensures GridShape(grid, languages, names)
    ensures forall l, c :: l in languages && c in names ==> grid[l][c] == []
  {
    var row: map<string, seq<Job>> := map c | c in names :: [];
    map l | l in languages :: row
  }

  /** Each cell holds the jobs among the first `n` that belong to it. */
  predicate Filled(grid: map<string, map<string, seq<Job>>>, jobs: seq<Job>, n: nat,
                   languages: set<string>, names: set<string>)
    requires n <= |jobs| && GridShape(grid, languages, names)
  {
    forall l, c :: l in languages && c in names ==> grid[l][c] == Placed(jobs, n, l, c)
  }

  /** The bucketing of one job: appended to its cell, or `KeyError` when the cell is missing. */
  method Place(grid: map<string, map<string, seq<Job>>>, jobs: seq<Job>, i: nat,
               languages: set<string>, names: set<string>)
    returns (r: Result<map<string, map<string, seq<Job>>>, KeyError>)
    requires i < |jobs| && GridShape(grid, languages, names) && Filled(grid, jobs, i, languages, names)
    ensures r.Ok? <==> !Misplaced(jobs[i], languages, names)
    ensures r.Err? ==> r.error == KeyError(MissingKey(jobs[i], languages))
    ensures r.Ok? ==> GridShape(r.value, languages, names) && Filled(r.value, jobs, i + 1, languages, names)
  {
    var job := jobs[i];
    if job.classification.None? {
      return Ok(grid);
    }
    var language, collection := job.classification.value.language, job.classification.value.collection;
    if language !in grid {
      return Err(KeyError(language));
    }
    if collection !in grid[language] {
      return Err(KeyError(collection));
    }
    var updated := grid[language := grid[language][collection := grid[language][collection] + [job]]];
    assert GridShape(updated, languages, names);
    return Ok(updated);
  }

  /**
   * The bucketing in `index`: a grid with an empty list for every language
   * and collection, then each job that has a language and a collection is
   * appended to its cell, in order. A job whose language or collection has
   * no cell raises `KeyError` for that key.
   */
  method Bucket(jobs: seq<Job>, languages: set<string>, names: set<string>)
    returns (r: Result<map<string, map<string, seq<Job>>>, KeyError>)
    ensures r.Ok? <==> FirstMisplaced(jobs, 0, languages, names) == |jobs|
    ensures r.Err? ==> r.error == KeyError(MissingKey(jobs[FirstMisplaced(jobs, 0, languages, names)], languages))
    ensures r.Ok? ==> GridShape(r.value, languages, names)
    ensures r.Ok? ==> forall l, c :: l in languages && c in names ==> r.value[l][c] == Placed(jobs, |jobs|, l, c)
  {
    var grid := EmptyGrid(languages, names);
    assert Filled(grid, jobs, 0, languages, names);
    for i := 0 to |jobs|
      invariant GridShape(grid, languages, names)
      invariant FirstMisplaced(jobs, i, languages, names) == FirstMisplaced(jobs, 0, languages, names)
      invariant Filled(grid, jobs, i, languages, names)
    {
      var placed := Place(grid, jobs, i, languages, names);
      if placed.Err? {
        return Err(placed.error);
      }
      grid := placed.value;
    }
    return Ok(grid);
  }
}
