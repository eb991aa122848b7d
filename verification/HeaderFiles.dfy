/** Which files of each kind pass, in the text of the files themselves. */
module HeaderFiles {
  import opened Strings
  import opened HeaderLines
  import opened HeaderText
  import opened HeaderCheck

  // ----- What is stripped from which kind of file -----

  predicate IsBuildLine(line: string) { "//go:build" <= line || "// +build" <= line }

  /** No line of build constraints is followed by an empty line; what stands behind the last newline is no line. */
  ghost predicate NoClosedBlock(lines: seq<string>) {
    forall i :: 0 <= i < |lines| - 2 && IsBuildLine(lines[i]) ==> lines[i + 1] != ""
  }

  ghost predicate NoShebang(lines: seq<string>) {
    forall i :: 0 <= i < |lines| - 1 ==> !("#!" <= lines[i])
  }

  lemma BuildLineTriggers(line: string)
    ensures Triggers(PatternFor("go").value, line) <==> IsBuildLine(line)
    ensures PatternFor("generatego") == PatternFor("go") && PatternFor("go").value.Block?
  {
    var starts := PatternFor("go").value.starts;
    assert starts[0] == "//go:build" && starts[1] == "// +build";
  }

  lemma ShebangTriggers(line: string)
    ensures Triggers(PatternFor("sh").value, line) <==> "#!" <= line
    ensures PatternFor("py") == PatternFor("sh") && PatternFor("sh").value.Line?
  {
    var starts := PatternFor("sh").value.starts;
    assert starts[0] == "#!";
  }

  /** From Go files, the first lines of build constraints that an empty line follows. */
  lemma GoIsStripped(extension: string, before: seq<string>, front: seq<string>, rest: string)
    requires extension == "go" || extension == "generatego"
    requires front != [] && forall i :: 0 <= i < |front| ==> IsBuildLine(front[i]) && '\n' !in front[i]
    requires forall i :: 0 <= i < |before| ==> !IsBuildLine(before[i]) && '\n' !in before[i]
    ensures Stripped(extension, Terminated(before) + (Terminated(front) + "\n" + rest)) == Terminated(before) + rest
  {
    var p, t := PatternFor("go").value, front + [""];
    forall line { BuildLineTriggers(line); }
    assert t[..|t| - 1] == front;
    assert Terminated(t) == Terminated(front) + "\n" by {
      TerminatedConcat(front, [""]);
      assert Terminated([""]) == "\n";
    }
    NoTriggerNoMatch(p, before, t + Split(rest, '\n'));
    StripRemoves(p, before, t, rest);
  }

  /** From scripts, the first line that begins with a shebang, and the empty lines behind it. */
  lemma ScriptIsStripped(extension: string, before: seq<string>, front: seq<string>, rest: string)
    requires extension == "sh" || extension == "py"
    requires front != [] && "#!" <= front[0] && '\n' !in front[0]
    requires forall i :: 0 < i < |front| ==> front[i] == ""
    requires !("\n" <= rest)
    requires forall i :: 0 <= i < |before| ==> !("#!" <= before[i]) && '\n' !in before[i]
    ensures Stripped(extension, Terminated(before) + (Terminated(front) + rest)) == Terminated(before) + rest
  {
    var p := PatternFor("sh").value;
    forall line { ShebangTriggers(line); }
    NoTriggerNoMatch(p, before, front + Split(rest, '\n'));
    StripRemoves(p, before, front, rest);
  }

  /** Nothing from other files, from Go files without a closed block, and from scripts without a shebang line. */
  lemma NothingIsStripped(extension: string, data: string)
    requires extension == "go" || extension == "generatego" ==> NoClosedBlock(Split(data, '\n'))
    requires extension == "sh" || extension == "py" ==> NoShebang(Split(data, '\n'))
    ensures Stripped(extension, data) == data
  {
    var lines := Split(data, '\n');
    if extension == "go" || extension == "generatego" {
      BuildLineTriggers("");
      NoBlockNoMatch(lines);
      StripIff(PatternFor("go").value, data, data);
    } else if extension == "sh" || extension == "py" {
      ShebangTriggers("");
      NoShebangNoMatch(lines);
      StripIff(PatternFor("sh").value, data, data);
    }
  }

  lemma NoBlockNoMatch(lines: seq<string>)
    requires NoClosedBlock(lines)
    ensures NoMatch(PatternFor("go").value, lines)
  {
    forall j, n ensures !MatchAt(PatternFor("go").value, lines, j, n) {
      if MatchAt(PatternFor("go").value, lines, j, n) {
        BuildLineTriggers(lines[j]);
        LastOfMatch(PatternFor("go").value, lines, j, n);
        BuildLineTriggers(lines[j + n - 2]);
        assert false;
      }
    }
  }

  lemma NoShebangNoMatch(lines: seq<string>)
    requires NoShebang(lines)
    ensures NoMatch(PatternFor("sh").value, lines)
  {
    forall j, n ensures !MatchAt(PatternFor("sh").value, lines, j, n) {
      if MatchAt(PatternFor("sh").value, lines, j, n) {
        LastOfMatch(PatternFor("sh").value, lines, j, n);
        ShebangTriggers(lines[j]);
        assert false;
      }
    }
  }

  lemma LastOfMatch(p: Pattern, lines: seq<string>, j: int, n: int)
    requires MatchAt(p, lines, j, n)
    ensures Triggers(p, lines[j]) && j < |lines| - 1
    ensures p.Block? ==> Triggers(p, lines[j + n - 2]) && lines[j + n - 1] == "" && 0 <= j + n - 2 < |lines| - 2
  {
    MatchTriggers(p, lines, j, n);
    var t := lines[j..j + n];
    if p.Block? {
      assert t[n - 1] == lines[j + n - 1] && t[..n - 1][n - 2] == lines[j + n - 2];
    }
  }

  // ----- Hand-written files -----

  function KeyOf(basename: string, extension: string): string {
    if extension != "" then extension else basename
  }

  /** A file that is not generated passes if and only if what is left of it begins with a filled template. */
  lemma HandWrittenIff(filename: string, basename: string, extension: string, data: string, left: string,
                       refs: map<string, seq<string>>, now: Year, k: int)
    requires !Contains(data, "DO NOT EDIT") && Stripped(extension, data) == left
    requires KeyOf(basename, extension) in refs && IsTemplate(refs[KeyOf(basename, extension)], k, now)
    ensures Check(filename, basename, extension, data, refs, now) == Passes
       <==> exists header ::
              Fills(refs[KeyOf(basename, extension)], k, header, now) && BeginsWith(left, header)
  {
    var ref, lines := refs[KeyOf(basename, extension)], SplitLines(left);
    GeneratedIff(filename, data);
    CheckHeaderIff(ref, k, lines, now);
    if |ref| <= |lines| && Fills(ref, k, lines[..|ref|], now) {
      assert BeginsWith(left, lines[..|ref|]);
    }
  }

  lemma FilledBegins(ref: seq<string>, k: int, header: seq<string>, tail: string, now: Year)
    requires 0 <= k < |ref| && Fills(ref, k, header, now)
    requires forall i :: 0 <= i < |ref| ==> Unbroken(ref[i])
    ensures BeginsWith(Terminated(header) + tail, header)
  {
    var ys :| AllYears(ys, now) && |ys| == Slots(ref[k]) && header == ref[k := Fill(ref[k], ys)];
    FillUnbroken(ref[k], ys, now);
    SplitLinesTerminated(header, tail);
  }

  /** A filled header passes in a Go file, behind lines of build constraints and an empty line. */
  lemma GoHeaderPasses(filename: string, basename: string, front: seq<string>, header: seq<string>, tail: string,
                       refs: map<string, seq<string>>, now: Year, k: int)
    requires "go" in refs && IsTemplate(refs["go"], k, now) && Fills(refs["go"], k, header, now)
    requires forall i :: 0 <= i < |refs["go"]| ==> Unbroken(refs["go"][i])
    requires front != [] && forall i :: 0 <= i < |front| ==>
               ("//go:build" <= front[i] || "// +build" <= front[i]) && '\n' !in front[i]
    requires !Contains(Terminated(front) + "\n" + (Terminated(header) + tail), "DO NOT EDIT")
    ensures Check(filename, basename, "go", Terminated(front) + "\n" + (Terminated(header) + tail), refs, now)
         == Passes
  {
    var rest := Terminated(header) + tail;
    var data := Terminated(front) + "\n" + rest;
    assert Terminated([]) + data == data && Terminated([]) + rest == rest;
    GoIsStripped("go", [], front, rest);
    HandWrittenIff(filename, basename, "go", data, rest, refs, now, k);
    FilledBegins(refs["go"], k, header, tail, now);
  }

  /** A filled header passes in a script, behind a shebang line and empty lines. */
  lemma ScriptHeaderPasses(filename: string, basename: string, extension: string, front: seq<string>,
                           header: seq<string>, tail: string, refs: map<string, seq<string>>, now: Year, k: int)
    requires extension == "sh" || extension == "py"
    requires extension in refs && IsTemplate(refs[extension], k, now) && Fills(refs[extension], k, header, now)
    requires forall i :: 0 <= i < |refs[extension]| ==> Unbroken(refs[extension][i])
    requires front != [] && "#!" <= front[0] && '\n' !in front[0]
    requires forall i :: 0 < i < |front| ==> front[i] == ""
    requires !("\n" <= Terminated(header) + tail)
    requires !Contains(Terminated(front) + (Terminated(header) + tail), "DO NOT EDIT")
    ensures Check(filename, basename, extension, Terminated(front) + (Terminated(header) + tail), refs, now) == Passes
  {
    var rest := Terminated(header) + tail;
    var data := Terminated(front) + rest;
    assert Terminated([]) + data == data && Terminated([]) + rest == rest;
    ScriptIsStripped(extension, [], front, rest);
    HandWrittenIff(filename, basename, extension, data, rest, refs, now, k);
    FilledBegins(refs[extension], k, header, tail, now);
  }

  /** Any other file, and one with nothing to strip, passes if and only if it begins with a filled template itself. */
  lemma OtherFileIff(filename: string, basename: string, extension: string, data: string,
                     refs: map<string, seq<string>>, now: Year, k: int)
    requires !Contains(data, "DO NOT EDIT")
    requires var key := if extension != "" then extension else basename;
             key in refs && IsTemplate(refs[key], k, now)
    requires extension == "go" || extension == "generatego" ==> NoClosedBlock(Split(data, '\n'))
    requires extension == "sh" || extension == "py" ==> NoShebang(Split(data, '\n'))
    ensures Check(filename, basename, extension, data, refs, now) == Passes
       <==> exists header ::
              Fills(refs[if extension != "" then extension else basename], k, header, now) && BeginsWith(data, header)
  {
    NothingIsStripped(extension, data);
    HandWrittenIff(filename, basename, extension, data, data, refs, now, k);
  }

  // ----- Generated files -----

  /** A generated file passes if and only if what is left of it begins with its own template, word for word. */
  lemma GeneratedFileIff(filename: string, basename: string, extension: string, data: string,
                         refs: map<string, seq<string>>, now: Year)
    requires Contains(data, "DO NOT EDIT")
    requires !Contains(filename, "hack/lib/swagger.sh") && !Contains(filename, "hack/boilerplate/boilerplate.py")
    requires var ext := if extension == "go" then "generatego" else if extension == "bzl" then "generatebzl"
                        else extension;
             KeyOf(basename, ext) in refs
    ensures var ext := if extension == "go" then "generatego" else if extension == "bzl" then "generatebzl"
                       else extension;
            var ref := refs[KeyOf(basename, ext)];
            (Check(filename, basename, extension, data, refs, now) == Passes)
            == (BeginsWith(Stripped(ext, data), ref) && forall i :: 0 <= i < |ref| ==> !Contains(ref[i], "YEAR"))
  {
    GeneratedIff(filename, data);
  }

  /** Whoever wrote it, a file that shows YEAR where its header should be does not pass. */
  lemma YearFieldFails(filename: string, basename: string, extension: string, data: string,
                       refs: map<string, seq<string>>, now: Year, i: nat)
    requires var generated := IsGenerated(filename, data);
             var key := TemplateKey(basename, extension, generated);
             var lines := SplitLines(Stripped(EffectiveExtension(extension, generated), data));
             key in refs && i < |refs[key]| <= |lines| && Contains(lines[i], "YEAR")
    ensures Check(filename, basename, extension, data, refs, now) == HasYearField
  {
    var generated := IsGenerated(filename, data);
    var lines := SplitLines(Stripped(EffectiveExtension(extension, generated), data));
    assert lines[..|refs[TemplateKey(basename, extension, generated)]|][i] == lines[i];
  }
}
