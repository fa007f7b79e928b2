/**
 * The mock analysis service: résumé analysis (one rewritten line per
 * non-blank section), job-description matching and interview questions from
 * fixed tables, and answer evaluation by answer length.
 *
 * The artificial delays and the console logging are left out; `Math.random`
 * is the parameter `draws`, whose `k`-th value is what the `k`-th call returns.
 */
module GeminiApi {
  import opened Wrappers
  import opened Text
  import opened Domain
  import JsObject

  datatype ResumeAnalysis = ResumeAnalysis(improvements: seq<Improvement>, improvedContent: JsObject.Object)

  datatype JobDescriptionAnalysis = JobDescriptionAnalysis(matches: seq<JobMatch>, gaps: seq<JobGap>, overallMatch: real)

  datatype AnswerEvaluation = AnswerEvaluation(evaluation: string, improvementPoints: seq<string>, score: real)

  // ---------------------------------------------------------------------------
  // analyzeResume: the rewrite heuristics

  /** A section title that takes the active-voice rewrite. */
  predicate IsExperienceTitle(title: string) {
    Contains(Lower(title), "kinh nghiệm") || Contains(Lower(title), "experience")
  }

  /** A section title that takes the proficiency note. */
  predicate IsSkillsTitle(title: string) {
    Contains(Lower(title), "kỹ năng") || Contains(Lower(title), "skills")
  }

  const WorkedWith: string := "đã làm việc với"
  const DevelopedAndDeployed: string := "đã phát triển và triển khai"
  const SkillsNote: string := " (có kinh nghiệm thực tế 2+ năm)"
  const Excellent: string := "xuất sắc, đứng đầu 10% sinh viên"

  const ExperienceReason: string := "Sử dụng từ ngữ chủ động và cụ thể hơn để thể hiện vai trò của bạn."
  const SkillsReason: string := "Thêm thông tin cụ thể về mức độ thành thạo để làm nổi bật kỹ năng của bạn."
  const AchievementReason: string := "Sử dụng thông tin cụ thể và có thể đo lường được để làm nổi bật thành tích của bạn."

  /**
   * `line.replace(/đã làm việc với/i, 'đã phát triển và triển khai')`: the first
   * case-insensitive occurrence of the phrase is rewritten, and nothing else.
   */
  function RewritePhrase(line: string): (r: string)
    ensures r == line <==> !Occurs(WorkedWith, Lower(line))
    ensures forall i: nat :: FirstMatch(Lower(line), WorkedWith, i) ==>
              i + |WorkedWith| <= |line| && r == line[..i] + DevelopedAndDeployed + line[i + |WorkedWith|..]
  {
    match IndexOf(Lower(line), WorkedWith)
    case None => line
    case Some(i) => line[..i] + DevelopedAndDeployed + line[i + |WorkedWith|..]
  }

  /**
   * `line.replace(/tốt$|good$/i, 'xuất sắc, đứng đầu 10% sinh viên')`: a final
   * "tốt" or "good", in any case, is rewritten; any other line is kept.
   */
  function RewriteTrailing(line: string): (r: string)
    ensures EndsWith(Lower(line), "tốt") ==> r == line[..|line| - 3] + Excellent
    ensures EndsWith(Lower(line), "good") ==> r == line[..|line| - 4] + Excellent
    ensures r == line <==> !(EndsWith(Lower(line), "tốt") || EndsWith(Lower(line), "good"))
  {
    var low := Lower(line);
    if EndsWith(low, "tốt") then
      assert !EndsWith(low, "good") by { assert low[|low| - 1] == "tốt"[2] != "good"[3]; }
      line[..|line| - 3] + Excellent
    else if EndsWith(low, "good") then line[..|line| - 4] + Excellent
    else line
  }

  /*
   * The three titles the upload page produces fall into the three categories,
   * and "Skills & Experience" falls into both (so `Suggestion` treats it as an
   * experience title).
   */
  lemma ExperienceTitle(title: string)
    requires title == "Kinh nghiệm làm việc"
    ensures IsExperienceTitle(title)
  {
    var piece := title[..11];
    assert piece == "Kinh nghiệm";
    LowerPiece(piece, "kinh nghiệm");
    FoundLowered(title, 0, piece, "kinh nghiệm");
  }

  lemma LowerPiece(s: string, low: string)
    requires |s| == |low| && forall i :: 0 <= i < |s| ==> LowerChar(s[i]) == low[i]
    ensures Lower(s) == low
  {
  }

  lemma FoundLowered(s: string, i: nat, piece: string, pat: string)
    requires i + |piece| <= |s| && s[i..i + |piece|] == piece && Lower(piece) == pat
    ensures Contains(Lower(s), pat)
  {
    assert Lower(s)[i..i + |pat|] == pat;
    assert MatchAt(Lower(s), pat, i);
  }

  lemma EducationTitle(title: string)
    requires title == "Học vấn"
    ensures !IsExperienceTitle(title) && !IsSkillsTitle(title)
  {
    var low := Lower(title);
    assert low[0] == 'h' && low[1] == 'ọ';
    Absent(low, "kinh nghiệm");
    Absent(low, "experience");
    Absent(low, "kỹ năng");
    Absent(low, "skills");
  }

  lemma SkillsTitle(title: string)
    requires title == "Kỹ năng"
    ensures !IsExperienceTitle(title) && IsSkillsTitle(title)
  {
    var low := Lower(title);
    Absent(low, "kinh nghiệm");
    Absent(low, "experience");
    LowerPiece(title, "kỹ năng");
    FoundLowered(title, 0, title, "kỹ năng");
  }

  /** A pattern whose first character appears nowhere it could start is not contained. */
  lemma Absent(s: string, pat: string)
    requires |pat| > 0 && forall i :: 0 <= i && i + |pat| <= |s| ==> s[i] != pat[0]
    ensures !Contains(s, pat)
  {
    forall i: nat ensures !MatchAt(s, pat, i) {
      if i + |pat| <= |s| {
        assert s[i..i + |pat|][0] == s[i];
      }
    }
  }

  lemma SkillsAndExperienceTitle(title: string)
    requires title == "Skills & Experience"
    ensures IsExperienceTitle(title) && IsSkillsTitle(title)
  {
    SkillsAndExperienceIsSkills(title);
    SkillsAndExperienceIsExperience(title);
  }

  lemma SkillsAndExperienceIsSkills(title: string)
    requires title == "Skills & Experience"
    ensures IsSkillsTitle(title)
  {
    var skills := title[..6];
    assert skills == "Skills";
    LowerPiece(skills, "skills");
    FoundLowered(title, 0, skills, "skills");
  }

  lemma SkillsAndExperienceIsExperience(title: string)
    requires title == "Skills & Experience"
    ensures IsExperienceTitle(title)
  {
    var experience := title[9..];
    assert experience == "Experience";
    LowerPiece(experience, "experience");
    FoundLowered(title, 9, experience, "experience");
  }

  /** Branch precedence: a title in both categories gets the experience rewrite and reason. */
  lemma SkillsAndExperienceRewrite(title: string, line: string)
    requires title == "Skills & Experience"
    ensures Suggestion(title, line) == RewritePhrase(line) && Reason(title) == ExperienceReason
  {
    SkillsAndExperienceTitle(title);
  }

  /** The rewritten line, by the category of the section title; experience is tested first. */
  function Suggestion(title: string, line: string): string {
    if IsExperienceTitle(title) then RewritePhrase(line)
    else if IsSkillsTitle(title) then line + SkillsNote
    else RewriteTrailing(line)
  }

  function Reason(title: string): string {
    if IsExperienceTitle(title) then ExperienceReason
    else if IsSkillsTitle(title) then SkillsReason
    else AchievementReason
  }

  /** `Math.floor(draw * n)` for a value `draw` of `Math.random()`. */
  function PickIndex(draw: real, n: nat): (k: nat)
    requires 0.0 <= draw < 1.0 && 0 < n
    ensures k < n
  {
    var x := draw * n as real;
    assert 0.0 <= x < n as real by {
      assert draw * n as real < 1.0 * n as real;
    }
    x.Floor
  }

  /** Every value `Math.random()` returns lies in [0, 1). */
  ghost predicate ValidDraws(draws: nat -> real) {
    forall k: nat :: 0.0 <= draws(k) < 1.0
  }

  /**
   * One step of `Object.entries(resumeContent).forEach`: a blank section is
   * skipped; otherwise its content is stored, one of its non-blank lines is
   * picked with the next random draw (the number of improvements so far is
   * the number of draws so far), and that line is rewritten in the stored
   * content.
   */
  function AnalyzeSection(acc: ResumeAnalysis, entry: JsObject.Entry, draws: nat -> real): ResumeAnalysis
    requires ValidDraws(draws)
  {
    var section, content := entry.key, entry.value;
    if IsBlank(content) then acc
    else
      var lines := NonBlankLines(content);
      var stored := JsObject.Set(acc.improvedContent, section, content);
      if |lines| == 0 then ResumeAnalysis(acc.improvements, stored)
      else
        var line := lines[PickIndex(draws(|acc.improvements|), |lines|)];
        var suggestion := Suggestion(section, line);
        JsObject.GetSet(acc.improvedContent, section, content, section);
        var improved := ReplaceFirst(JsObject.Get(stored, section).value, line, suggestion);
        ResumeAnalysis(acc.improvements + [Improvement(section, line, suggestion, Reason(section))],
                       JsObject.Set(stored, section, improved))
  }

  /** What `analyzeResume` returns: the steps above over the entries, in order. */
  function Analysis(resumeContent: JsObject.Object, draws: nat -> real): ResumeAnalysis
    requires ValidDraws(draws)
    decreases |resumeContent|
  {
    if resumeContent == [] then ResumeAnalysis([], [])
    else
      var n := |resumeContent| - 1;
      AnalyzeSection(Analysis(resumeContent[..n], draws), resumeContent[n], draws)
  }

  /** `geminiApi.analyzeResume(resumeContent)` */
  method AnalyzeResume(resumeContent: JsObject.Object, draws: nat -> real) returns (response: ResumeAnalysis)
    requires ValidDraws(draws)
    ensures response == Analysis(resumeContent, draws)
  {
    var improvements: seq<Improvement> := [];
    var improvedContent: JsObject.Object := [];
    for i := 0 to |resumeContent|
      invariant ResumeAnalysis(improvements, improvedContent) == Analysis(resumeContent[..i], draws)
    {
      assert resumeContent[..i + 1][..i] == resumeContent[..i];
      improvements, improvedContent := AnalyzeEntry(improvements, improvedContent, resumeContent[i], draws);
    }
    assert resumeContent[..|resumeContent|] == resumeContent;
    response := ResumeAnalysis(improvements, improvedContent);
  }

  /** The body of the `forEach` in `analyzeResume`, for one entry. */
  method AnalyzeEntry(improvements: seq<Improvement>, improvedContent: JsObject.Object,
                      entry: JsObject.Entry, draws: nat -> real)
    returns (improvements': seq<Improvement>, improvedContent': JsObject.Object)
    requires ValidDraws(draws)
    ensures ResumeAnalysis(improvements', improvedContent') ==
            AnalyzeSection(ResumeAnalysis(improvements, improvedContent), entry, draws)
  {
    improvements', improvedContent' := improvements, improvedContent;
    var section, content := entry.key, entry.value;
    if IsBlank(content) {
      return;
    }
    var lines := NonBlankLines(content);
    improvedContent' := JsObject.Set(improvedContent', section, content);
    if |lines| > 0 {
      var line := lines[PickIndex(draws(|improvements'|), |lines|)];
      var suggestion := Suggestion(section, line);
      improvements' := improvements' + [Improvement(section, line, suggestion, Reason(section))];
      JsObject.GetSet(improvedContent, section, content, section);
      improvedContent' := JsObject.Set(improvedContent', section,
                                       ReplaceFirst(JsObject.Get(improvedContent', section).value, line, suggestion));
    }
  }

  // ---------------------------------------------------------------------------
  // What analyzeResume promises

  /** The keys of `o` whose values are not blank, in order. */
  function NonBlankKeys(o: JsObject.Object): seq<string> {
    if o == [] then []
    else
      var n := |o| - 1;
      NonBlankKeys(o[..n]) + (if IsBlank(o[n].value) then [] else [o[n].key])
  }

  /** A key is listed by `NonBlankKeys` exactly when the object holds it with a non-blank value. */
  lemma {:induction false} NonBlankKeysMembers(o: JsObject.Object, k: string)
    requires JsObject.DistinctKeys(o)
    ensures k in NonBlankKeys(o) <==> JsObject.Get(o, k).Some? && !IsBlank(JsObject.Get(o, k).value)
  {
    if o != [] {
      var n := |o| - 1;
      var o', e := o[..n], o[n];
      assert o == o' + [e];
      JsObject.DistinctKeysAppend(o', e);
      NonBlankKeysMembers(o', k);
      JsObject.GetAppend(o', e, k);
      if k == e.key {
        NonBlankKeysAreKeys(o');
      }
    }
  }

  lemma {:induction false} NonBlankKeysAreKeys(o: JsObject.Object)
    ensures forall k :: k in NonBlankKeys(o) ==> k in JsObject.Keys(o)
  {
    if o != [] {
      var n := |o| - 1;
      assert o == o[..n] + [o[n]];
      assert JsObject.Keys(o) == JsObject.Keys(o[..n]) + [o[n].key];
      NonBlankKeysAreKeys(o[..n]);
    }
  }

  /** A non-blank section whose title is not stored yet adds one improvement and one improved section. */
  lemma AnalyzeSectionAppends(acc: ResumeAnalysis, e: JsObject.Entry, draws: nat -> real)
    requires ValidDraws(draws) && !IsBlank(e.value)
    requires e.key !in JsObject.Keys(acc.improvedContent)
    ensures |NonBlankLines(e.value)| > 0
    ensures var lines := NonBlankLines(e.value);
            var line := lines[PickIndex(draws(|acc.improvements|), |lines|)];
            var suggestion := Suggestion(e.key, line);
            AnalyzeSection(acc, e, draws) ==
              ResumeAnalysis(acc.improvements + [Improvement(e.key, line, suggestion, Reason(e.key))],
                             acc.improvedContent + [JsObject.Entry(e.key, ReplaceFirst(e.value, line, suggestion))])
  {
    NonBlankHasLine(e.value);
    AnalyzeSectionUnfold(acc, e, draws);
    var lines := NonBlankLines(e.value);
    var line := lines[PickIndex(draws(|acc.improvements|), |lines|)];
    JsObject.SetAbsentTwice(acc.improvedContent, e.key, e.value, ReplaceFirst(e.value, line, Suggestion(e.key, line)));
  }

  /** A non-blank section with a non-blank line stores its content and then the rewritten content. */
  lemma AnalyzeSectionUnfold(acc: ResumeAnalysis, e: JsObject.Entry, draws: nat -> real)
    requires ValidDraws(draws) && !IsBlank(e.value) && |NonBlankLines(e.value)| > 0
    ensures var lines := NonBlankLines(e.value);
            var line := lines[PickIndex(draws(|acc.improvements|), |lines|)];
            var suggestion := Suggestion(e.key, line);
            AnalyzeSection(acc, e, draws) ==
              ResumeAnalysis(acc.improvements + [Improvement(e.key, line, suggestion, Reason(e.key))],
                             JsObject.Set(JsObject.Set(acc.improvedContent, e.key, e.value), e.key,
                                          ReplaceFirst(e.value, line, suggestion)))
  {
    JsObject.GetSet(acc.improvedContent, e.key, e.value, e.key);
  }

  /**
   * What the `j`-th improvement says: its section is a non-blank section of
   * the input, its original line is the non-blank line of that section the
   * `j`-th random draw picks, its suggestion and reason follow the section's
   * category, and the `j`-th improved section holds the content with the
   * first occurrence of that line replaced by the suggestion.
   */
  ghost predicate SoundImprovement(resumeContent: JsObject.Object, draws: nat -> real, j: nat,
                                   imp: Improvement, improved: JsObject.Entry)
    requires ValidDraws(draws)
  {
    var content := JsObject.Get(resumeContent, imp.section);
    && content.Some? && !IsBlank(content.value)
    && improved.key == imp.section
    && (var lines := NonBlankLines(content.value);
        |lines| > 0 && imp.original == lines[PickIndex(draws(j), |lines|)])
    && imp.suggestion == Suggestion(imp.section, imp.original)
    && imp.reason == Reason(imp.section)
    && improved.value == ReplaceFirst(content.value, imp.original, imp.suggestion)
  }

  /**
   * The shape of the analysis of `resumeContent`: one improvement per
   * non-blank section, in input order; `improvedContent` has exactly the
   * non-blank section titles as its keys, in the same order; and every
   * improvement is sound.
   */
  ghost predicate Shaped(resumeContent: JsObject.Object, draws: nat -> real, r: ResumeAnalysis)
    requires ValidDraws(draws)
  {
    && |r.improvements| == |r.improvedContent|
    && JsObject.Keys(r.improvedContent) == NonBlankKeys(resumeContent)
    && JsObject.DistinctKeys(r.improvedContent)
    && forall j :: 0 <= j < |r.improvements| ==>
         SoundImprovement(resumeContent, draws, j, r.improvements[j], r.improvedContent[j])
  }

  /** Soundness of an improvement survives appending a section with a new title. */
  lemma SoundImprovementAppend(o: JsObject.Object, e: JsObject.Entry, draws: nat -> real, j: nat,
                               imp: Improvement, improved: JsObject.Entry)
    requires ValidDraws(draws) && SoundImprovement(o, draws, j, imp, improved)
    ensures SoundImprovement(o + [e], draws, j, imp, improved)
  {
    JsObject.GetAppend(o, e, imp.section);
  }

  /** One step of the fold keeps the analysis shaped. */
  lemma AnalysisStep(o: JsObject.Object, e: JsObject.Entry, draws: nat -> real, prev: ResumeAnalysis)
    requires ValidDraws(draws) && JsObject.DistinctKeys(o + [e]) && Shaped(o, draws, prev)
    ensures Shaped(o + [e], draws, AnalyzeSection(prev, e, draws))
  {
    NonBlankKeysAppend(o, e);
    AllSoundExtend(o, e, draws, prev.improvements, prev.improvedContent);
    if !IsBlank(e.value) {
      JsObject.DistinctKeysAppend(o, e);
      NonBlankKeysAreKeys(o);
      AnalysisStepNew(o, e, draws, prev);
    }
  }

  lemma NonBlankKeysAppend(o: JsObject.Object, e: JsObject.Entry)
    ensures NonBlankKeys(o + [e]) == NonBlankKeys(o) + (if IsBlank(e.value) then [] else [e.key])
  {
    assert (o + [e])[..|o|] == o;
  }

  lemma AllSoundExtend(o: JsObject.Object, e: JsObject.Entry, draws: nat -> real,
                       imps: seq<Improvement>, ic: JsObject.Object)
    requires ValidDraws(draws) && |imps| == |ic|
    requires forall j :: 0 <= j < |imps| ==> SoundImprovement(o, draws, j, imps[j], ic[j])
    ensures forall j :: 0 <= j < |imps| ==> SoundImprovement(o + [e], draws, j, imps[j], ic[j])
  {
    forall j | 0 <= j < |imps| ensures SoundImprovement(o + [e], draws, j, imps[j], ic[j]) {
      SoundImprovementAppend(o, e, draws, j, imps[j], ic[j]);
    }
  }

  /** The step for a non-blank section appends a sound improvement and improved text. */
  lemma AnalysisStepNew(o: JsObject.Object, e: JsObject.Entry, draws: nat -> real, prev: ResumeAnalysis)
    requires ValidDraws(draws) && !IsBlank(e.value) && e.key !in JsObject.Keys(o)
    requires e.key !in JsObject.Keys(prev.improvedContent)
    requires |prev.improvements| == |prev.improvedContent| && JsObject.DistinctKeys(prev.improvedContent)
    requires forall j :: 0 <= j < |prev.improvements| ==>
               SoundImprovement(o + [e], draws, j, prev.improvements[j], prev.improvedContent[j])
    ensures var r := AnalyzeSection(prev, e, draws);
            && |r.improvements| == |r.improvedContent|
            && JsObject.Keys(r.improvedContent) == JsObject.Keys(prev.improvedContent) + [e.key]
            && JsObject.DistinctKeys(r.improvedContent)
            && forall j :: 0 <= j < |r.improvements| ==>
                 SoundImprovement(o + [e], draws, j, r.improvements[j], r.improvedContent[j])
  {
    AnalyzeSectionAppends(prev, e, draws);
    var lines := NonBlankLines(e.value);
    var line := lines[PickIndex(draws(|prev.improvements|), |lines|)];
    var suggestion := Suggestion(e.key, line);
    var imp := Improvement(e.key, line, suggestion, Reason(e.key));
    var entry := JsObject.Entry(e.key, ReplaceFirst(e.value, line, suggestion));
    JsObject.GetAppend(o, e, e.key);
    assert SoundImprovement(o + [e], draws, |prev.improvements|, imp, entry);
    ShapedAppend(o + [e], draws, prev, imp, entry);
  }

  /** Appending a sound improvement with a new title keeps the analysis shaped. */
  lemma ShapedAppend(o: JsObject.Object, draws: nat -> real, prev: ResumeAnalysis,
                     imp: Improvement, entry: JsObject.Entry)
    requires ValidDraws(draws)
    requires |prev.improvements| == |prev.improvedContent| && JsObject.DistinctKeys(prev.improvedContent)
    requires entry.key !in JsObject.Keys(prev.improvedContent)
    requires forall j :: 0 <= j < |prev.improvements| ==>
               SoundImprovement(o, draws, j, prev.improvements[j], prev.improvedContent[j])
    requires SoundImprovement(o, draws, |prev.improvements|, imp, entry)
    ensures var r := ResumeAnalysis(prev.improvements + [imp], prev.improvedContent + [entry]);
            && |r.improvements| == |r.improvedContent|
            && JsObject.Keys(r.improvedContent) == JsObject.Keys(prev.improvedContent) + [entry.key]
            && JsObject.DistinctKeys(r.improvedContent)
            && forall j :: 0 <= j < |r.improvements| ==>
                 SoundImprovement(o, draws, j, r.improvements[j], r.improvedContent[j])
  {
    JsObject.KeysAppend(prev.improvedContent, entry);
    JsObject.DistinctKeysAppend(prev.improvedContent, entry);
    AllSoundAppend(o, draws, prev.improvements, prev.improvedContent, imp, entry);
  }

  lemma AllSoundAppend(o: JsObject.Object, draws: nat -> real, imps: seq<Improvement>, ic: JsObject.Object,
                       imp: Improvement, entry: JsObject.Entry)
    requires ValidDraws(draws) && |imps| == |ic|
    requires forall j :: 0 <= j < |imps| ==> SoundImprovement(o, draws, j, imps[j], ic[j])
    requires SoundImprovement(o, draws, |imps|, imp, entry)
    ensures forall j :: 0 <= j < |imps| + 1 ==> SoundImprovement(o, draws, j, (imps + [imp])[j], (ic + [entry])[j])
  {
    forall j | 0 <= j < |imps| + 1 ensures SoundImprovement(o, draws, j, (imps + [imp])[j], (ic + [entry])[j]) {
      if j < |imps| {
        assert (imps + [imp])[j] == imps[j] && (ic + [entry])[j] == ic[j];
      }
    }
  }

  /** `analyzeResume` on an object with distinct titles gives a shaped analysis. */
  lemma {:induction false} AnalysisSound(resumeContent: JsObject.Object, draws: nat -> real)
    requires ValidDraws(draws) && JsObject.DistinctKeys(resumeContent)
    ensures Shaped(resumeContent, draws, Analysis(resumeContent, draws))
  {
    if resumeContent != [] {
      var n := |resumeContent| - 1;
      var o, e := resumeContent[..n], resumeContent[n];
      assert resumeContent == o + [e];
      JsObject.DistinctKeysAppend(o, e);
      AnalysisSound(o, draws);
      AnalysisStep(o, e, draws, Analysis(o, draws));
    }
  }

  /** In a shaped analysis the `i`-th improvement is for the `i`-th improved section. */
  lemma ShapedSectionKeys(resumeContent: JsObject.Object, draws: nat -> real, r: ResumeAnalysis)
    requires ValidDraws(draws) && Shaped(resumeContent, draws, r)
    ensures |r.improvements| == |r.improvedContent| && JsObject.DistinctKeys(r.improvedContent)
    ensures JsObject.Keys(r.improvedContent) == NonBlankKeys(resumeContent)
    ensures forall i :: 0 <= i < |r.improvements| ==> r.improvements[i].section == JsObject.Keys(r.improvedContent)[i]
  {
    forall i | 0 <= i < |r.improvements|
      ensures r.improvements[i].section == JsObject.Keys(r.improvedContent)[i]
    {
      assert SoundImprovement(resumeContent, draws, i, r.improvements[i], r.improvedContent[i]);
    }
  }

  /**
   * Improvements listed in the order of distinct keys are for distinct
   * sections, and for exactly those keys.
   */
  lemma SectionsFollowKeys(improvements: seq<Improvement>, keys: seq<string>)
    requires |improvements| == |keys|
    requires forall i, j :: 0 <= i < j < |keys| ==> keys[i] != keys[j]
    requires forall i :: 0 <= i < |improvements| ==> improvements[i].section == keys[i]
    ensures forall i, j :: 0 <= i < j < |improvements| ==> improvements[i].section != improvements[j].section
    ensures forall t :: (exists i :: 0 <= i < |improvements| && improvements[i].section == t) <==> t in keys
  {
    forall t | t in keys ensures exists i :: 0 <= i < |improvements| && improvements[i].section == t {
      var i :| 0 <= i < |keys| && keys[i] == t;
      assert improvements[i].section == t;
    }
  }

  /** A title gets an improved text exactly when its section content is not blank. */
  lemma AnalysisCovers(resumeContent: JsObject.Object, draws: nat -> real, title: string)
    requires ValidDraws(draws) && JsObject.DistinctKeys(resumeContent)
    ensures var content := JsObject.Get(resumeContent, title);
            var improved := JsObject.Get(Analysis(resumeContent, draws).improvedContent, title);
            improved.Some? <==> content.Some? && !IsBlank(content.value)
  {
    AnalysisSound(resumeContent, draws);
    NonBlankKeysMembers(resumeContent, title);
  }

  // ---------------------------------------------------------------------------
  // analyzeJobDescription and getInterviewQuestions: fixed tables

  const OverallMatch: real := 0.78

  /** The fixed matches, gaps and overall match of the mock job-description analysis. */
  const JobDescriptionTable: JobDescriptionAnalysis :=
    JobDescriptionAnalysis(
      [ JobMatch("React", 0.9), JobMatch("JavaScript", 0.95),
        JobMatch("TypeScript", 0.8), JobMatch("Team collaboration", 0.85) ],
      [ JobGap("GraphQL", High, "Nêu bật bất kỳ dự án nào có sử dụng REST API và nhấn mạnh khả năng học công nghệ mới nhanh chóng."),
        JobGap("Docker", Medium, "Nếu có kinh nghiệm với công cụ CI/CD hoặc triển khai, hãy nhấn mạnh điều đó trong CV của bạn.") ],
      OverallMatch)

  /** `geminiApi.analyzeJobDescription(resumeContent, jobDescription)`: the same table for every input. */
  function AnalyzeJobDescription(resumeContent: JsObject.Object, jobDescription: string): (r: JobDescriptionAnalysis)
    ensures |r.matches| == 4 && |r.gaps| == 2
    ensures forall m :: m in r.matches ==> 0.0 <= m.confidence <= 1.0
    ensures 0.0 <= r.overallMatch <= 1.0
  {
    JobDescriptionTable
  }

  /** The five default questions, each with its hint. */
  const DefaultQuestions: seq<InterviewQuestion> :=
    [ InterviewQuestion("Hãy giới thiệu về bản thân và kinh nghiệm làm việc của bạn.",
        "Tập trung vào kỹ năng và kinh nghiệm liên quan đến vị trí. Giữ câu trả lời ngắn gọn trong khoảng 2 phút."),
      InterviewQuestion("Điểm mạnh và điểm yếu lớn nhất của bạn là gì?",
        "Khi nói về điểm yếu, hãy đề cập đến cách bạn đang cải thiện nó."),
      InterviewQuestion("Tại sao bạn muốn làm việc cho công ty chúng tôi?",
        "Nghiên cứu về công ty trước và nêu ra những điểm cụ thể về văn hóa, sản phẩm hoặc sứ mệnh của họ mà bạn ngưỡng mộ."),
      InterviewQuestion("Mô tả một tình huống khó khăn trong công việc và cách bạn giải quyết nó.",
        "Sử dụng phương pháp STAR: Situation, Task, Action, Result (Tình huống, Nhiệm vụ, Hành động, Kết quả)."),
      InterviewQuestion("Bạn nhìn thấy mình ở đâu trong 5 năm tới?",
        "Liên kết mục tiêu nghề nghiệp của bạn với vị trí và cơ hội phát triển tại công ty.") ]

  /** `geminiApi.getInterviewQuestions(jobType)`: the default questions, whatever the job type. */
  function GetInterviewQuestions(jobType: string): (qs: seq<InterviewQuestion>)
    ensures |qs| == 5
  {
    DefaultQuestions
  }

  /** The job type is not consulted: every job type gets the same questions. */
  lemma QuestionsIgnoreJobType(jobType: string, other: string)
    ensures GetInterviewQuestions(jobType) == GetInterviewQuestions(other)
  {
  }

  // ---------------------------------------------------------------------------
  // evaluateAnswer

  const ShortAnswerFeedback: string := "Câu trả lời quá ngắn và thiếu chi tiết cụ thể."
  const ShortAnswerPoints: seq<string> := [
    "Mở rộng câu trả lời với ví dụ cụ thể",
    "Thêm thông tin về kết quả đạt được",
    "Sử dụng phương pháp STAR để cấu trúc câu trả lời" ]
  const MediumAnswerFeedback: string := "Câu trả lời có độ dài vừa phải nhưng có thể bổ sung thêm chi tiết."
  const MediumAnswerPoints: seq<string> := [
    "Thêm dữ liệu cụ thể hoặc số liệu để củng cố các điểm chính",
    "Nhấn mạnh thêm về kỹ năng liên quan đến vị trí" ]
  const FullAnswerFeedback: string := "Câu trả lời đầy đủ và chi tiết, thể hiện sự chuẩn bị kỹ lưỡng."
  const FullAnswerPoints: seq<string> := [
    "Đảm bảo câu trả lời súc tích và tập trung vào những điểm quan trọng nhất",
    "Sử dụng ngôn ngữ cơ thể và giọng điệu tự tin khi phỏng vấn thực tế" ]

  function Min(a: real, b: real): real { if a <= b then a else b }
  function Max(a: real, b: real): real { if a >= b then a else b }

  /** `Math.min(Math.max(length / 100, 0.5), 0.95)` */
  function LengthScore(length: nat): (score: real)
    ensures 0.5 <= score <= 0.95
  {
    Min(Max(length as real / 100.0, 0.5), 0.95)
  }

  /** `geminiApi.evaluateAnswer(question, answer)`: feedback in three tiers of answer length. */
  function EvaluateAnswer(question: string, answer: string): (r: AnswerEvaluation)
    ensures r.score == LengthScore(Utf16Length(answer)) && 0.5 <= r.score <= 0.95
    ensures Utf16Length(answer) < 50 ==> r.evaluation == ShortAnswerFeedback && r.improvementPoints == ShortAnswerPoints
    ensures 50 <= Utf16Length(answer) < 200 ==> r.evaluation == MediumAnswerFeedback && r.improvementPoints == MediumAnswerPoints
    ensures 200 <= Utf16Length(answer) ==> r.evaluation == FullAnswerFeedback && r.improvementPoints == FullAnswerPoints
  {
    var length := Utf16Length(answer);
    var score := LengthScore(length);
    if length < 50 then AnswerEvaluation(ShortAnswerFeedback, ShortAnswerPoints, score)
    else if length < 200 then AnswerEvaluation(MediumAnswerFeedback, MediumAnswerPoints, score)
    else AnswerEvaluation(FullAnswerFeedback, FullAnswerPoints, score)
  }

  /**
   * The score is the floor 0.5 up to 50 code units, the length over 100 from
   * 50 to 95, and the ceiling 0.95 from 95 on; it never falls as the answer
   * grows.
   */
  lemma LengthScoreShape(length: nat, longer: nat)
    ensures length <= 50 ==> LengthScore(length) == 0.5
    ensures 50 <= length <= 95 ==> LengthScore(length) == length as real / 100.0
    ensures 95 <= length ==> LengthScore(length) == 0.95
    ensures length <= longer ==> LengthScore(length) <= LengthScore(longer)
  {
  }

  /**
   * Score and tier agree: every "too short" answer scores the floor 0.5,
   * every "full" answer the ceiling 0.95, and only "medium" answers score
   * strictly in between (answers of 51 to 94 code units).
   */
  lemma ScoreByTier(question: string, answer: string)
    ensures var r := EvaluateAnswer(question, answer);
            && (r.evaluation == ShortAnswerFeedback ==> r.score == 0.5)
            && (r.evaluation == FullAnswerFeedback ==> r.score == 0.95)
            && (0.5 < r.score < 0.95 ==> r.evaluation == MediumAnswerFeedback)
  {
    var length := Utf16Length(answer);
    LengthScoreShape(length, length);
    assert ShortAnswerFeedback != MediumAnswerFeedback && ShortAnswerFeedback != FullAnswerFeedback
        && MediumAnswerFeedback != FullAnswerFeedback by {
      assert |ShortAnswerFeedback| == 46 && |MediumAnswerFeedback| == 66 && |FullAnswerFeedback| == 62;
    }
  }

  /** A 16-character answer is "too short" and scores 0.5. */
  lemma SixteenCharacterAnswer(question: string)
    ensures var r := EvaluateAnswer(question, "I am a developer");
            r.score == 0.5 && r.evaluation == ShortAnswerFeedback && |r.improvementPoints| == 3
  {
    assert |"I am a developer"| == 16;
  }
}
