/** The licence-header check of one file. */
module HeaderCheck {
  import opened Wrappers
  import opened Strings
  import opened HeaderLines
  import opened HeaderText

  /** Everything but Passes makes the file fail; NoReference is the KeyError of the table of templates. */
  datatype Verdict = Passes | Unreadable | NoReference | TooShort | HasYearField | Mismatch

  const SKIPPED_UNGENERATED_FILES := ["hack/lib/swagger.sh", "hack/boilerplate/boilerplate.py"]
  const DO_NOT_EDIT := "DO NOT EDIT"

  ghost predicate IsGenerated(filename: string, data: string) {
    && (forall i :: 0 <= i < |SKIPPED_UNGENERATED_FILES| ==>
          !Contains(filename, SKIPPED_UNGENERATED_FILES[i]))
    && Contains(data, DO_NOT_EDIT)
  }

  lemma GeneratedIff(filename: string, data: string)
    ensures IsGenerated(filename, data) <==> && Contains(data, "DO NOT EDIT")
                                             && !Contains(filename, "hack/lib/swagger.sh")
                                             && !Contains(filename, "hack/boilerplate/boilerplate.py")
  {
    var skipped := SKIPPED_UNGENERATED_FILES;
    assert skipped[0] == "hack/lib/swagger.sh" && skipped[1] == "hack/boilerplate/boilerplate.py";
  }

  method CheckGenerated(filename: string, data: string) returns (generated: bool)
    ensures generated <==> IsGenerated(filename, data)
    ensures generated <==> && Contains(data, "DO NOT EDIT")
                           && !Contains(filename, "hack/lib/swagger.sh")
                           && !Contains(filename, "hack/boilerplate/boilerplate.py")
  {
    GeneratedIff(filename, data);
    for i := 0 to |SKIPPED_UNGENERATED_FILES|
      invariant forall j :: 0 <= j < i ==> !Contains(filename, SKIPPED_UNGENERATED_FILES[j])
    {
      if Contains(filename, SKIPPED_UNGENERATED_FILES[i]) {
        return false;
      }
    }
    return Contains(data, DO_NOT_EDIT);
  }

  /** The extension whose template and pattern apply. */
  function EffectiveExtension(extension: string, generated: bool): string {
    if generated && extension == "go" then "generatego"
    else if generated && extension == "bzl" then "generatebzl"
    else extension
  }

  /** The key of the template that applies. */
  function TemplateKey(basename: string, extension: string, generated: bool): string {
    var ext := EffectiveExtension(extension, generated);
    if ext != "" then ext else basename
  }

  function PatternFor(extension: string): Option<Pattern> {
    if extension == "go" || extension == "generatego" then Some(GO_BUILD_CONSTRAINTS)
    else if extension == "sh" || extension == "py" then Some(SHEBANG)
    else None
  }

  function Stripped(extension: string, data: string): string {
    match PatternFor(extension)
    case Some(p) => Strip(p, data)
    case None => data
  }

  ghost predicate NoYearField(header: seq<string>) {
    forall i :: 0 <= i < |header| ==> !Contains(header[i], YEAR)
  }

  ghost predicate IsFirstDated(header: seq<string>, i: int, now: Year) {
    && 0 <= i < |header| && Years(header[i], now) != []
    && forall j :: 0 <= j < i ==> Years(header[j], now) == []
  }

  /** The header is the template once the years of its first dated line are substituted. */
  ghost predicate Accepts(ref: seq<string>, header: seq<string>, now: Year) {
    && |header| == |ref|
    && forall i :: 0 <= i < |ref| ==>
         ref[i] == if IsFirstDated(header, i, now) then SubYears(header[i], now) else header[i]
  }

  ghost function CheckHeader(ref: seq<string>, lines: seq<string>, generated: bool, now: Year): Verdict {
    if |ref| > |lines| then TooShort
    else if !NoYearField(lines[..|ref|]) then HasYearField
    else if (if generated then lines[..|ref|] == ref else Accepts(ref, lines[..|ref|], now)) then Passes
    else Mismatch
  }

  ghost function Check(filename: string, basename: string, extension: string, data: string,
                       refs: map<string, seq<string>>, now: Year): Verdict
  {
    var generated := IsGenerated(filename, data);
    var ext := EffectiveExtension(extension, generated);
    var key := TemplateKey(basename, extension, generated);
    if key !in refs then NoReference
    else CheckHeader(refs[key], SplitLines(Stripped(ext, data)), generated, now)
  }

  /** Substitutes the years of the first line that has any. */
  method SubstituteFirstDated(header: seq<string>, now: Year) returns (data: seq<string>)
    ensures |data| == |header|
    ensures forall i :: 0 <= i < |header| ==>
              data[i] == if IsFirstDated(header, i, now) then SubYears(header[i], now) else header[i]
  {
    data := header;
    var i := 0;
    while i < |data|
      invariant 0 <= i <= |data|
      invariant data == header
      invariant forall j :: 0 <= j < i ==> Years(header[j], now) == []
    {
      var found := |Years(data[i], now)|;
      data := data[i := SubYears(data[i], now)];
      if found != 0 {
        break;
      }
      DateFreeIff(header[i], now);
      i := i + 1;
    }
  }

  /** `contents` is what reading the file in text mode gives, if it can be opened. */
  method FilePasses(filename: string, basename: string, fileExtension: string, contents: Option<string>,
                    refs: map<string, seq<string>>, now: Year) returns (verdict: Verdict)
    ensures verdict == if contents == None then Unreadable
                       else Check(filename, basename, fileExtension, contents.value, refs, now)
  {
    if contents == None {
      return Unreadable;
    }
    var text := contents.value;
    var generated := CheckGenerated(filename, text);
    var extension := fileExtension;
    if generated {
      if extension == "go" {
        extension := "generatego";
      } else if extension == "bzl" {
        extension := "generatebzl";
      }
    }
    var key := if extension != "" then extension else basename;
    if key !in refs {
      return NoReference;
    }
    var ref := refs[key];
    if extension == "go" || extension == "generatego" {
      text := Strip(GO_BUILD_CONSTRAINTS, text);
    } else if extension == "sh" || extension == "py" {
      text := Strip(SHEBANG, text);
    }
    var data := SplitLines(text);
    if |ref| > |data| {
      return TooShort;
    }
    data := data[..|ref|];
    for i := 0 to |data|
      invariant forall j :: 0 <= j < i ==> !Contains(data[j], YEAR)
    {
      if Contains(data[i], YEAR) {
        return HasYearField;
      }
    }
    if !generated {
      data := SubstituteFirstDated(data, now);
    }
    return if ref != data then Mismatch else Passes;
  }

  // ----- Soundness -----

  /** Line `k` filled with supported years, one for each YEAR. */
  ghost predicate Fills(ref: seq<string>, k: int, header: seq<string>, now: Year)
    requires 0 <= k < |ref|
  {
    exists ys :: AllYears(ys, now) && |ys| == Slots(ref[k]) && header == ref[k := Fill(ref[k], ys)]
  }

  /** An accepted header is the template with supported years in the slots of at most one line. */
  lemma HeaderSound(ref: seq<string>, header: seq<string>, now: Year)
    requires NoYearField(header) && Accepts(ref, header, now)
    ensures header == ref || exists k :: 0 <= k < |ref| && Fills(ref, k, header, now)
  {
    if k :| IsFirstDated(header, k, now) {
      FillAfterSub(header[k], now);
      assert forall i :: 0 <= i < |ref| && i != k ==> !IsFirstDated(header, i, now);
      assert header == ref[k := Fill(ref[k], Years(header[k], now))];
      assert Fills(ref, k, header, now);
    } else {
      assert header == ref;
    }
  }

  lemma OneYearLineAtMost(ref: seq<string>, header: seq<string>, now: Year, i: nat, j: nat)
    requires i < j < |ref| && Contains(ref[i], YEAR) && Contains(ref[j], YEAR)
    ensures NoYearField(header) ==> header != ref && !Accepts(ref, header, now)
  {
  }

  /** No file, generated or not, passes a template that has the YEAR field on two lines. */
  lemma TwoYearLinesNeverPass(filename: string, basename: string, extension: string, data: string,
                              refs: map<string, seq<string>>, now: Year, ref: seq<string>, i: nat, j: nat)
    requires var key := TemplateKey(basename, extension, IsGenerated(filename, data));
             key in refs && refs[key] == ref
    requires i < j < |ref| && Contains(ref[i], YEAR) && Contains(ref[j], YEAR)
    ensures Check(filename, basename, extension, data, refs, now) != Passes
  {
    var lines := SplitLines(Stripped(EffectiveExtension(extension, IsGenerated(filename, data)), data));
    if |ref| <= |lines| {
      OneYearLineAtMost(ref, lines[..|ref|], now, i, j);
    }
  }

  /** What is left of a file whose first strippable block, if its extension has any, is removed. */
  ghost predicate Leaves(extension: string, data: string, text: string) {
    match PatternFor(extension)
    case Some(p) => StripsTo(p, data, text)
    case None => text == data
  }

  lemma StrippedIff(extension: string, data: string, text: string)
    ensures Stripped(extension, data) == text <==> Leaves(extension, data, text)
  {
    if PatternFor(extension).Some? {
      var p := PatternFor(extension).value;
      assert Plain(p);
      StripIff(p, data, text);
    }
  }

  ghost predicate BeginsWith(text: string, header: seq<string>) {
    var lines := SplitLines(text);
    |header| <= |lines| && lines[..|header|] == header
  }

  /** A passing, hand-written file begins with a filled-in template once a block is removed. */
  lemma FileSound(filename: string, basename: string, extension: string, data: string,
                  refs: map<string, seq<string>>, now: Year, ref: seq<string>) returns (header: seq<string>)
    requires !IsGenerated(filename, data)
    requires Check(filename, basename, extension, data, refs, now) == Passes
    requires ref == refs[TemplateKey(basename, extension, false)]
    ensures exists text :: Leaves(extension, data, text) && BeginsWith(text, header)
    ensures NoYearField(header)
    ensures header == ref || exists k :: 0 <= k < |ref| && Fills(ref, k, header, now)
  {
    var text := Stripped(extension, data);
    StrippedIff(extension, data, text);
    header := SplitLines(text)[..|ref|];
    assert BeginsWith(text, header);
    HeaderSound(ref, header, now);
  }

  // ----- Completeness -----

  /** YEAR stands on line `k` only, no digit before it; no supported year up to that line. */
  ghost predicate IsTemplate(ref: seq<string>, k: int, now: Year) {
    && 0 <= k < |ref|
    && Contains(ref[k], YEAR) && CleanLine(ref[k], now)
    && (forall i :: 0 <= i < |ref| && i != k ==> !Contains(ref[i], YEAR))
    && (forall i :: 0 <= i < k ==> DateFree(ref[i], now))
  }

  /** The headers a template accepts are exactly the ways to fill it with supported years. */
  lemma HeaderIff(ref: seq<string>, k: int, header: seq<string>, now: Year)
    requires IsTemplate(ref, k, now)
    ensures NoYearField(header) && Accepts(ref, header, now)
       <==> Fills(ref, k, header, now)
  {
    if NoYearField(header) && Accepts(ref, header, now) {
      assert IsFirstDated(header, k, now);
      LineIff(ref[k], header[k], now);
      var ys :| AllYears(ys, now) && |ys| == Slots(ref[k]) && header[k] == Fill(ref[k], ys);
      assert forall i :: 0 <= i < |ref| && i != k ==> !IsFirstDated(header, i, now);
      assert header == ref[k := Fill(ref[k], ys)];
    }
    if ys :| AllYears(ys, now) && |ys| == Slots(ref[k]) && header == ref[k := Fill(ref[k], ys)] {
      FilledIsAccepted(ref, k, ys, now);
    }
  }

  lemma FilledIsAccepted(ref: seq<string>, k: int, ys: seq<string>, now: Year)
    requires IsTemplate(ref, k, now) && AllYears(ys, now) && |ys| == Slots(ref[k])
    ensures var header := ref[k := Fill(ref[k], ys)];
            NoYearField(header) && Accepts(ref, header, now)
  {
    var header := ref[k := Fill(ref[k], ys)];
    SlotsIff(ref[k]);
    SubAfterFill(ref[k], ys, now);
    forall j | 0 <= j < k ensures Years(header[j], now) == [] {
      DateFreeIff(ref[j], now);
    }
    assert IsFirstDated(header, k, now);
    assert forall i :: 0 <= i < |ref| && i != k ==> !IsFirstDated(header, i, now);
  }

  lemma {:induction false} FillUnbroken(t: string, ys: seq<string>, now: Year)
    requires Unbroken(t) && AllYears(ys, now)
    ensures Unbroken(Fill(t, ys))
  {
    if t != "" {
      if YEAR <= t && ys != [] {
        FillUnbroken(t[4..], ys[1..], now);
      } else {
        FillUnbroken(t[1..], ys, now);
      }
    }
  }

  lemma FillTriggersNothing(p: Pattern, t: string, ys: seq<string>, now: Year)
    requires p == GO_BUILD_CONSTRAINTS || p == SHEBANG
    requires !Triggers(p, t) && AllYears(ys, now)
    ensures !Triggers(p, Fill(t, ys))
  {
    forall i | 0 <= i < |p.starts| ensures !(p.starts[i] <= Fill(t, ys)) {
      if p.starts[i] <= Fill(t, ys) {
        FillKeepsText(t, ys, p.starts[i], now);
      }
    }
  }

  /** Lines that can stand in a header of this kind of file: unbroken, and not themselves stripped. */
  ghost predicate HeaderLinesOK(extension: string, lines: seq<string>) {
    forall i :: 0 <= i < |lines| ==>
      Unbroken(lines[i]) && (PatternFor(extension).Some? ==> !Triggers(PatternFor(extension).value, lines[i]))
  }

  /** Nothing, or lines the pattern of the extension removes when `rest` follows. */
  ghost predicate Removable(extension: string, front: seq<string>, rest: string) {
    || front == []
    || (&& PatternFor(extension).Some?
        && Matches(PatternFor(extension).value, front, Split(rest, '\n'))
        && forall i :: 0 <= i < |front| ==> '\n' !in front[i])
  }

  /** The text of a header with `front` between its lines, and `tail` after it. */
  function TextOf(header: seq<string>, m: nat, front: seq<string>, tail: string): string
    requires m <= |header|
  {
    Terminated(header[..m]) + (Terminated(front) + (Terminated(header[m..]) + tail))
  }

  lemma Regroup(a: string, b: string, c: string)
    ensures a + (b + c) == a + b + c
    ensures "" + c == c
  {
  }

  lemma TerminatedSplit(header: seq<string>, m: nat)
    requires m <= |header|
    ensures Terminated(header[..m]) + Terminated(header[m..]) == Terminated(header)
  {
    assert header == header[..m] + header[m..];
    TerminatedConcat(header[..m], header[m..]);
  }

  lemma TextOfPlain(header: seq<string>, m: nat, tail: string)
    requires m <= |header|
    ensures Terminated(header[..m]) + (Terminated(header[m..]) + tail) == Terminated(header) + tail
    ensures TextOf(header, m, [], tail) == Terminated(header) + tail
  {
    var a, b := Terminated(header[..m]), Terminated(header[m..]);
    TerminatedSplit(header, m);
    Regroup(a, b, tail);
    assert Terminated([]) + (b + tail) == b + tail;
  }

  /** After stripping, the text is the header again and some tail. */
  lemma StrippedText(extension: string, header: seq<string>, m: nat, front: seq<string>, tail: string)
    returns (after: string)
    requires HeaderLinesOK(extension, header) && m <= |header|
    requires Removable(extension, front, Terminated(header[m..]) + tail)
    ensures Stripped(extension, TextOf(header, m, front, tail)) == Terminated(header) + after
  {
    TextOfPlain(header, m, tail);
    after := tail;
    if PatternFor(extension).Some? {
      var p := PatternFor(extension).value;
      forall i | 0 <= i < |header| ensures '\n' !in header[i] && !Triggers(p, header[i]) {
        assert Unbroken(header[i]);
      }
      if front == [] {
        StripKeeps(p, header, tail);
        after := Strip(p, tail);
      } else {
        var rest := Terminated(header[m..]) + tail;
        NoTriggerNoMatch(p, header[..m], front + Split(rest, '\n'));
        StripRemoves(p, header[..m], front, rest);
      }
    }
  }

  lemma StrippedHeader(extension: string, header: seq<string>, m: nat, front: seq<string>, tail: string)
    requires HeaderLinesOK(extension, header) && m <= |header|
    requires Removable(extension, front, Terminated(header[m..]) + tail)
    ensures var lines := SplitLines(Stripped(extension, TextOf(header, m, front, tail)));
            |header| <= |lines| && lines[..|header|] == header
  {
    var after := StrippedText(extension, header, m, front, tail);
    SplitLinesTerminated(header, after);
  }

  lemma FilledLinesOK(extension: string, ref: seq<string>, k: int, ys: seq<string>, now: Year)
    requires 0 <= k < |ref| && HeaderLinesOK(extension, ref) && AllYears(ys, now)
    ensures HeaderLinesOK(extension, ref[k := Fill(ref[k], ys)])
  {
    FillUnbroken(ref[k], ys, now);
    if PatternFor(extension).Some? {
      FillTriggersNothing(PatternFor(extension).value, ref[k], ys, now);
    }
  }

  /**
   * A hand-written file passes if it is a template filled with supported years, any tail on new
   * lines, and anywhere between the lines of the header, at the top say, one strippable block.
   */
  lemma FileComplete(filename: string, basename: string, extension: string,
                     refs: map<string, seq<string>>, now: Year, ref: seq<string>, k: int, ys: seq<string>,
                     m: nat, front: seq<string>, tail: string)
    requires TemplateKey(basename, extension, false) in refs
    requires ref == refs[TemplateKey(basename, extension, false)]
    requires IsTemplate(ref, k, now) && HeaderLinesOK(extension, ref) && m <= |ref|
    requires AllYears(ys, now) && |ys| == Slots(ref[k])
    requires var header := ref[k := Fill(ref[k], ys)];
             && Removable(extension, front, Terminated(header[m..]) + tail)
             && !IsGenerated(filename, TextOf(header, m, front, tail))
    ensures var header := ref[k := Fill(ref[k], ys)];
            Check(filename, basename, extension, TextOf(header, m, front, tail), refs, now) == Passes
  {
    var header := ref[k := Fill(ref[k], ys)];
    FilledLinesOK(extension, ref, k, ys, now);
    StrippedHeader(extension, header, m, front, tail);
    FilledIsAccepted(ref, k, ys, now);
  }

  lemma CheckHeaderIff(ref: seq<string>, k: int, lines: seq<string>, now: Year)
    requires IsTemplate(ref, k, now)
    ensures CheckHeader(ref, lines, false, now) == Passes
       <==> (|ref| <= |lines| && Fills(ref, k, lines[..|ref|], now))
  {
    if |ref| <= |lines| {
      HeaderIff(ref, k, lines[..|ref|], now);
    }
  }

  /** With a template, the hand-written files that pass are those that begin with a way to fill it. */
  lemma FileIff(filename: string, basename: string, extension: string, data: string,
                refs: map<string, seq<string>>, now: Year, ref: seq<string>, k: int)
    requires !IsGenerated(filename, data)
    requires TemplateKey(basename, extension, false) in refs
    requires ref == refs[TemplateKey(basename, extension, false)]
    requires IsTemplate(ref, k, now)
    ensures Check(filename, basename, extension, data, refs, now) == Passes
       <==> exists text, header ::
              Leaves(extension, data, text) && BeginsWith(text, header) && Fills(ref, k, header, now)
  {
    var stripped := Stripped(extension, data);
    var lines := SplitLines(stripped);
    CheckHeaderIff(ref, k, lines, now);
    StrippedIff(extension, data, stripped);
    if |ref| <= |lines| && Fills(ref, k, lines[..|ref|], now) {
      assert BeginsWith(stripped, lines[..|ref|]);
    }
    if text, header :| Leaves(extension, data, text) && BeginsWith(text, header) && Fills(ref, k, header, now) {
      StrippedIff(extension, data, text);
    }
  }
}
