/**
 * The installer's reference-rewrite step (`update_file_contents` and
 * `update_vscode_settings` in install.py) over file contents that the
 * caller has already read: which files change, how many references are
 * reported, why command prefixes survive, and when a second pass is a
 * no-op.
 */
module References {
  import opened Text
  import opened Replace

  /** The aggregate `update_file_contents` reports, with the contents every
      target file holds afterwards. */
  datatype Summary = Summary(contents: seq<string>, total: nat, filesUpdated: nat)

  /** The references to `.ai-workflow` in all files together. */
  function TotalReferences(files: seq<string>): nat {
    if |files| == 0 then 0 else Count(files[0], WorkflowFolder) + TotalReferences(files[1..])
  }

  /** The positions of the files that mention `.ai-workflow`. */
  function Mentioning(files: seq<string>): set<nat> {
    set k: nat | k < |files| && Contains(files[k], WorkflowFolder)
  }

  /** Rewrites `.ai-workflow` to `folderName` in every target file, in
      order, counting the references replaced and the files written. */
  function UpdateFileContents(files: seq<string>, folderName: string): (r: Summary)
    ensures |r.contents| == |files|
    ensures forall k :: 0 <= k < |files| ==>
      r.contents[k] == RewriteContent(files[k], WorkflowFolder, folderName).content
    ensures r.total == TotalReferences(files)
    ensures r.filesUpdated == |Mentioning(files)|
    ensures r.filesUpdated <= |files|
    ensures r.filesUpdated <= r.total
    ensures r.total == 0 <==> forall k :: 0 <= k < |files| ==> !Contains(files[k], WorkflowFolder)
  {
    if |files| == 0 then Summary([], 0, 0)
    else
      var w := RewriteContent(files[0], WorkflowFolder, folderName);
      var rest := UpdateFileContents(files[1..], folderName);
      assert forall k :: 1 <= k < |files| ==> files[k] == files[1..][k - 1];
      RewriteContentIsReplace(files[0], WorkflowFolder, folderName);
      MentioningCons(files);
      Summary([w.content] + rest.contents, w.count + rest.total,
              (if w.written then 1 else 0) + rest.filesUpdated)
  }

  /** Every element of a set of naturals moved up by one. */
  function Shift(ks: set<nat>): set<nat> {
    set k | k in ks :: k + 1
  }

  lemma {:induction false} ShiftSize(ks: set<nat>)
    ensures |Shift(ks)| == |ks|
    decreases |ks|
  {
    if ks != {} {
      var x :| x in ks;
      ShiftSize(ks - {x});
      forall y | y in Shift(ks)
        ensures y in Shift(ks - {x}) + {x + 1}
      {
        var k :| k in ks && y == k + 1;
        if k != x { assert k in ks - {x}; }
      }
      forall y | y in Shift(ks - {x})
        ensures y in Shift(ks)
      {
        var k :| k in ks - {x} && y == k + 1;
        assert k in ks;
      }
      assert x in ks;
      assert Shift(ks) == Shift(ks - {x}) + {x + 1};
      assert x + 1 !in Shift(ks - {x});
    }
  }

  /** The first file adds itself to the files mentioning the folder
      exactly when it mentions it. */
  lemma MentioningCons(files: seq<string>)
    requires |files| > 0
    ensures |Mentioning(files)| ==
      (if Contains(files[0], WorkflowFolder) then 1 else 0) + |Mentioning(files[1..])|
  {
    var head: set<nat> := if Contains(files[0], WorkflowFolder) then {0} else {};
    var tail := Mentioning(files[1..]);
    forall k: nat
      ensures k in Mentioning(files) <==> k in head + Shift(tail)
    {
      if k > 0 {
        assert k in Shift(tail) <==> k - 1 in tail;
        if k < |files| { assert files[k] == files[1..][k - 1]; }
      } else {
        assert 0 !in Shift(tail);
      }
    }
    assert Mentioning(files) == head + Shift(tail);
    ShiftSize(tail);
    assert 0 !in Shift(tail);
  }

  /** The literal `update_vscode_settings` replaces. */
  const PromptsSuffix: string := "/prompts"

  /** The content `.vscode/settings.json` holds after
      `update_vscode_settings`. */
  function UpdateSettings(content: string, folderName: string): (r: string)
    ensures !Contains(content, WorkflowFolder + PromptsSuffix) ==> r == content
  {
    var pat := WorkflowFolder + PromptsSuffix;
    var r := ReplaceAll(content, pat, folderName + PromptsSuffix);
    assert !Contains(content, pat) ==> r == content by {
      if !Contains(content, pat) { AbsentUnchanged(content, pat, folderName + PromptsSuffix); }
    }
    r
  }

  /** The settings file is also a target of the reference rewrite, which
      runs first; once that rewrite has removed every `.ai-workflow`, the
      dedicated settings update finds nothing left to change. */
  lemma SettingsUpdateAfterRewriteIsNoOp(content: string, folderName: string)
    requires !Contains(RewriteContent(content, WorkflowFolder, folderName).content, WorkflowFolder)
    ensures var once := RewriteContent(content, WorkflowFolder, folderName).content;
            UpdateSettings(once, folderName) == once
  {
    var once := RewriteContent(content, WorkflowFolder, folderName).content;
    AbsentExtended(once, WorkflowFolder, PromptsSuffix);
  }

  // ---------------------------------------------------------------------
  // Command prefixes

  /** The two command prefixes the installer promises to leave alone. */
  const AddCommand: string := "/ai.add"
  const ClarifyCommand: string := "/ai.clarify"

  /** Command text that starts with `/`, does not contain the folder
      literal and ends clear of it can never be part of an occurrence. */
  predicate InertCommand(c: string) {
    && |c| > 0
    && !HasChar(WorkflowFolder, c[0])
    && !Contains(c, WorkflowFolder)
    && EndsClear(c, WorkflowFolder)
  }

  lemma NamedCommandsAreInert()
    ensures InertCommand(AddCommand)
    ensures InertCommand(ClarifyCommand)
  {
    assert !HasChar(WorkflowFolder, '/');
    ShortAbsent(AddCommand, WorkflowFolder);
    ShortAbsent(ClarifyCommand, WorkflowFolder);
    forall i | 0 <= i < |AddCommand| && |AddCommand| - i < |WorkflowFolder|
      ensures !(AddCommand[i..] <= WorkflowFolder)
    {
      assert AddCommand[i..][0] == AddCommand[i];
      if i == 3 { assert AddCommand[i..][2] != WorkflowFolder[2]; }
    }
    forall i | 0 <= i < |ClarifyCommand| && |ClarifyCommand| - i < |WorkflowFolder|
      ensures !(ClarifyCommand[i..] <= WorkflowFolder)
    {
      assert ClarifyCommand[i..][0] == ClarifyCommand[i];
      if i == 3 { assert ClarifyCommand[i..][1] != WorkflowFolder[1]; }
    }
  }

  /** Wherever an inert command such as `/ai.add` or `/ai.clarify` appears
      in a target file, the rewrite leaves it in place and rewrites the text
      on either side independently. */
  lemma CommandSurvivesRewrite(before: string, command: string, after: string, folderName: string)
    requires InertCommand(command)
    ensures var w := RewriteContent(before + command + after, WorkflowFolder, folderName);
            w.content == RewriteContent(before, WorkflowFolder, folderName).content
                         + command
                         + RewriteContent(after, WorkflowFolder, folderName).content
  {
    SurroundedTextSurvives(before, command, after, WorkflowFolder, folderName);
    RewriteContentIsReplace(before + command + after, WorkflowFolder, folderName);
    RewriteContentIsReplace(before, WorkflowFolder, folderName);
    RewriteContentIsReplace(after, WorkflowFolder, folderName);
  }

  // ---------------------------------------------------------------------
  // Re-running the rewrite

  /** A second pass writes nothing exactly when the first pass left no
      `.ai-workflow`, and then the content is what the first pass left. */
  lemma SecondPassNoOpIff(content: string, folderName: string)
    ensures var once := RewriteContent(content, WorkflowFolder, folderName).content;
            var twice := RewriteContent(once, WorkflowFolder, folderName);
            && (!twice.written <==> !Contains(once, WorkflowFolder))
            && (!twice.written ==> twice.count == 0 && twice.content == once)
  {
  }

  /** For any folder name other than `.ai-workflow` itself (which the
      installer refuses because that folder already exists), the rewrite is
      idempotent on a file exactly when its first pass leaves no
      occurrence: otherwise the second pass changes the text. */
  lemma {:induction false} IdempotentIff(content: string, folderName: string)
    requires folderName != WorkflowFolder
    ensures var once := RewriteContent(content, WorkflowFolder, folderName).content;
            RewriteContent(once, WorkflowFolder, folderName).content == once
            <==> !Contains(once, WorkflowFolder)
  {
    var once := RewriteContent(content, WorkflowFolder, folderName).content;
    RewriteContentIsReplace(once, WorkflowFolder, folderName);
    if Contains(once, WorkflowFolder) {
      ReplaceDiffers(once, WorkflowFolder, folderName);
    }
  }

  lemma ReplaceOnFolder(name: string)
    ensures Count(WorkflowFolder, WorkflowFolder) == 1
    ensures ReplaceAll(WorkflowFolder, WorkflowFolder, name) == name
  {
    assert WorkflowFolder[|WorkflowFolder|..] == [];
    assert ReplaceAll(WorkflowFolder, WorkflowFolder, name) == name + [];
  }

  lemma ShortTextUntouched(tail: string, name: string)
    requires |tail| < |WorkflowFolder|
    ensures Count(tail, WorkflowFolder) == 0
    ensures ReplaceAll(tail, WorkflowFolder, name) == tail
  {
    ShortAbsent(tail, WorkflowFolder);
    CountZeroIff(tail, WorkflowFolder);
    AbsentUnchanged(tail, WorkflowFolder, name);
  }

  /** A folder name that itself contains `.ai-workflow` breaks idempotence
      on every file that mentions the folder: the first pass writes the
      name in, and the second pass finds `.ai-workflow` inside it, writes
      again and, unless the name is `.ai-workflow` itself, changes the text. */
  lemma NameContainingFolderNotIdempotent(content: string, name: string)
    requires Contains(name, WorkflowFolder) && Contains(content, WorkflowFolder)
    ensures var once := RewriteContent(content, WorkflowFolder, name);
            var twice := RewriteContent(once.content, WorkflowFolder, name);
            && once.written && twice.written
            && (name != WorkflowFolder ==> twice.content != once.content)
  {
    var once := RewriteContent(content, WorkflowFolder, name).content;
    RewriteContentIsReplace(content, WorkflowFolder, name);
    ReplacementOccurs(content, WorkflowFolder, name);
    ContainsTransitive(once, name, WorkflowFolder);
    RewriteContentIsReplace(once, WorkflowFolder, name);
    if name != WorkflowFolder {
      ReplaceDiffers(once, WorkflowFolder, name);
    }
  }

  /** With `name` = `c` + `.ai-workflow`, a file holding `.ai-workflow`
      becomes `name` and then `c` + `name`: each pass adds a character. */
  lemma {:induction false} PrefixedNameGrows(name: string)
    requires |name| == |WorkflowFolder| + 1 && name[1..] == WorkflowFolder
    ensures var once := RewriteContent(WorkflowFolder, WorkflowFolder, name);
            var twice := RewriteContent(once.content, WorkflowFolder, name);
            && once == Rewrite(1, name, true)
            && twice == Rewrite(1, [name[0]] + name, true)
  {
    ReplaceOnFolder(name);
    RewriteContentIsReplace(WorkflowFolder, WorkflowFolder, name);
    assert !(WorkflowFolder <= name);
    RewriteContentIsReplace(name, WorkflowFolder, name);
  }

  /** `.ai-workflow` followed by text too short to hold another
      occurrence: one reference, and only the folder literal is replaced. */
  lemma FolderThenShortText(tail: string, name: string)
    requires |tail| < |WorkflowFolder|
    ensures Count(WorkflowFolder + tail, WorkflowFolder) == 1
    ensures ReplaceAll(WorkflowFolder + tail, WorkflowFolder, name) == name + tail
  {
    var s := WorkflowFolder + tail;
    assert WorkflowFolder <= s && s[|WorkflowFolder|..] == tail;
    ShortTextUntouched(tail, name);
  }

  /** A replacement can complete a new occurrence with the text after it:
      with `name` a proper prefix of `.ai-workflow` (such as `.ai`), a file
      holding `.ai-workflow` followed by the rest of the literal (such as
      `.ai-workflow-workflow`) becomes `.ai-workflow` and then `name`. */
  lemma {:induction false} BoundaryOccurrenceNotIdempotent(k: nat)
    requires 0 < k < |WorkflowFolder|
    ensures var name := WorkflowFolder[..k];
            var once := RewriteContent(WorkflowFolder + WorkflowFolder[k..], WorkflowFolder, name);
            var twice := RewriteContent(once.content, WorkflowFolder, name);
            && once == Rewrite(1, WorkflowFolder, true)
            && twice == Rewrite(1, name, true)
  {
    var name, tail := WorkflowFolder[..k], WorkflowFolder[k..];
    var s := WorkflowFolder + tail;
    FolderThenShortText(tail, name);
    assert name + tail == WorkflowFolder;
    RewriteContentIsReplace(s, WorkflowFolder, name);
    ReplaceOnFolder(name);
    RewriteContentIsReplace(WorkflowFolder, WorkflowFolder, name);
  }

  /** The boundary counterexample with concrete text. */
  lemma BoundaryExample(content: string, name: string)
    requires content == ".ai-workflow-workflow" && name == ".ai"
    ensures var once := RewriteContent(content, WorkflowFolder, name).content;
            once == ".ai-workflow" && RewriteContent(once, WorkflowFolder, name).content == ".ai"
  {
    assert WorkflowFolder[..3] == name;
    assert WorkflowFolder + WorkflowFolder[3..] == content;
    BoundaryOccurrenceNotIdempotent(3);
  }

  lemma XNameFacts(name: string)
    requires name == "x.ai-workflow"
    ensures |name| == |WorkflowFolder| + 1 && name[0] != '.' && name[1..] == WorkflowFolder
    ensures ['x'] + name == "xx.ai-workflow"
  {
  }

  /** The self-containing folder name with concrete text: a file holding
      `.ai-workflow` renamed to `x.ai-workflow`. */
  lemma SelfContainingNameExample(name: string)
    requires name == "x.ai-workflow"
    ensures var once := RewriteContent(WorkflowFolder, WorkflowFolder, name).content;
            once == name && RewriteContent(once, WorkflowFolder, name).content == "xx.ai-workflow"
  {
    XNameFacts(name);
    PrefixedNameGrows(name);
  }
}
