/**
 * The evaluation page. On mount it reads the sections handed over by the
 * upload page and the job description from the key-value store; without
 * sections it reports the missing data and goes back to the upload page.
 * Otherwise it builds the title-to-content dictionary, asks the service for
 * the résumé analysis and, for a non-blank job description, for the
 * job-description analysis, and shows each section with the improvements
 * suggested for it.
 *
 * Backend failures are the parameter `outcome`; `Math.random` inside the
 * résumé analysis is the parameter `draws`. The calls made to the service
 * are recorded with their arguments.
 */
module Evaluation {
  import opened Wrappers
  import opened Text
  import opened Domain
  import JsObject
  import GeminiApi

  // ---------------------------------------------------------------------------
  // The title-to-content dictionary

  /** The content of the last section titled `title`, if any. */
  function LastContent(sections: seq<ResumeSection>, title: string): Option<string> {
    if sections == [] then None
    else if sections[|sections| - 1].title == title then Some(sections[|sections| - 1].content)
    else LastContent(sections[..|sections| - 1], title)
  }

  /** `resumeContent[section.title] = section.content` for each section in turn. */
  function ResumeContentOf(sections: seq<ResumeSection>): JsObject.Object {
    if sections == [] then []
    else
      var n := |sections| - 1;
      JsObject.Set(ResumeContentOf(sections[..n]), sections[n].title, sections[n].content)
  }

  /** The loop of the mount effect that fills the dictionary. */
  method BuildResumeContent(sections: seq<ResumeSection>) returns (resumeContent: JsObject.Object)
    ensures resumeContent == ResumeContentOf(sections)
  {
    resumeContent := [];
    for i := 0 to |sections|
      invariant resumeContent == ResumeContentOf(sections[..i])
    {
      assert sections[..i + 1][..i] == sections[..i];
      resumeContent := JsObject.Set(resumeContent, sections[i].title, sections[i].content);
    }
    assert sections[..|sections|] == sections;
  }

  /** For a repeated title the later section's content wins. */
  lemma {:induction false} ResumeContentLastWins(sections: seq<ResumeSection>, title: string)
    ensures JsObject.Get(ResumeContentOf(sections), title) == LastContent(sections, title)
  {
    if sections != [] {
      var n := |sections| - 1;
      ResumeContentLastWins(sections[..n], title);
      JsObject.GetSet(ResumeContentOf(sections[..n]), sections[n].title, sections[n].content, title);
    }
  }

  /** The keys of the dictionary are exactly the section titles, each once. */
  lemma {:induction false} ResumeContentKeys(sections: seq<ResumeSection>)
    ensures JsObject.DistinctKeys(ResumeContentOf(sections))
    ensures forall t :: t in JsObject.Keys(ResumeContentOf(sections)) <==>
              exists i :: 0 <= i < |sections| && sections[i].title == t
  {
    if sections != [] {
      var n := |sections| - 1;
      var prev := ResumeContentOf(sections[..n]);
      ResumeContentKeys(sections[..n]);
      JsObject.SetKeys(prev, sections[n].title, sections[n].content);
      JsObject.SetKeepsDistinct(prev, sections[n].title, sections[n].content);
      forall t | t in JsObject.Keys(ResumeContentOf(sections))
        ensures exists i :: 0 <= i < |sections| && sections[i].title == t
      {
        if t != sections[n].title {
          var i :| 0 <= i < n && sections[..n][i].title == t;
          assert sections[i].title == t;
        }
      }
      forall t | exists i :: 0 <= i < |sections| && sections[i].title == t
        ensures t in JsObject.Keys(ResumeContentOf(sections))
      {
        var i :| 0 <= i < |sections| && sections[i].title == t;
        if i < n {
          assert sections[..n][i].title == t;
        }
      }
    }
  }

  // ---------------------------------------------------------------------------
  // What is shown for one section

  /** The part of an improvement the highlighted text shows. */
  datatype Highlight = Highlight(original: string, suggestion: string, reason: string)

  function HighlightOf(imp: Improvement): Highlight {
    Highlight(imp.original, imp.suggestion, imp.reason)
  }

  /** The improvements whose `section` is `title`, in order, without the section. */
  function SectionHighlights(improvements: seq<Improvement>, title: string): (hs: seq<Highlight>)
    ensures |hs| <= |improvements|
    ensures forall h :: h in hs <==>
              exists i :: 0 <= i < |improvements| && improvements[i].section == title && HighlightOf(improvements[i]) == h
  {
    if improvements == [] then []
    else
      var rest := SectionHighlights(improvements[1..], title);
      assert forall i :: 1 <= i < |improvements| ==> improvements[i] == improvements[1..][i - 1];
      if improvements[0].section == title then [HighlightOf(improvements[0])] + rest else rest
  }

  /** Filtering keeps the original order: it distributes over concatenation. */
  lemma {:induction false} SectionHighlightsAppend(a: seq<Improvement>, b: seq<Improvement>, title: string)
    ensures SectionHighlights(a + b, title) == SectionHighlights(a, title) + SectionHighlights(b, title)
  {
    if a == [] {
      assert a + b == b;
    } else {
      assert (a + b)[1..] == a[1..] + b;
      SectionHighlightsAppend(a[1..], b, title);
    }
  }

  /** With distinct sections, a title has one highlight if some improvement is for it and none otherwise. */
  lemma {:induction false} HighlightsOfDistinct(improvements: seq<Improvement>, title: string)
    requires forall i, j :: 0 <= i < j < |improvements| ==> improvements[i].section != improvements[j].section
    ensures |SectionHighlights(improvements, title)| ==
              if exists i :: 0 <= i < |improvements| && improvements[i].section == title then 1 else 0
  {
    if improvements != [] {
      var rest := improvements[1..];
      HighlightsOfDistinct(rest, title);
      if improvements[0].section == title {
        forall i | 0 <= i < |rest| ensures rest[i].section != title {
          assert rest[i] == improvements[i + 1];
        }
      } else {
        if exists i :: 0 <= i < |improvements| && improvements[i].section == title {
          var i :| 0 <= i < |improvements| && improvements[i].section == title;
          assert rest[i - 1].section == title;
        }
        if exists i :: 0 <= i < |rest| && rest[i].section == title {
          var i :| 0 <= i < |rest| && rest[i].section == title;
          assert improvements[i + 1].section == title;
        }
      }
    }
  }

  /**
   * After the analysis of a dictionary with distinct titles, a title whose
   * content is present and not blank shows exactly one highlight, and any
   * other title none.
   */
  lemma OneHighlightPerSection(resumeContent: JsObject.Object, draws: nat -> real, title: string)
    requires GeminiApi.ValidDraws(draws) && JsObject.DistinctKeys(resumeContent)
    ensures var content := JsObject.Get(resumeContent, title);
            var shown := SectionHighlights(GeminiApi.Analysis(resumeContent, draws).improvements, title);
            |shown| == if content.Some? && !IsBlank(content.value) then 1 else 0
  {
    var r := GeminiApi.Analysis(resumeContent, draws);
    GeminiApi.AnalysisSound(resumeContent, draws);
    GeminiApi.ShapedSectionKeys(resumeContent, draws, r);
    GeminiApi.SectionsFollowKeys(r.improvements, JsObject.Keys(r.improvedContent));
    GeminiApi.NonBlankKeysMembers(resumeContent, title);
    HighlightsOfDistinct(r.improvements, title);
  }

  /**
   * On the page: a section shows exactly one highlight when the last section
   * with its title has non-blank content, and none otherwise. An earlier
   * section sharing that title shows what the last one shows.
   */
  lemma SectionHighlightCount(sections: seq<ResumeSection>, draws: nat -> real, title: string)
    requires GeminiApi.ValidDraws(draws)
    ensures var c := LastContent(sections, title);
            var shown := SectionHighlights(GeminiApi.Analysis(ResumeContentOf(sections), draws).improvements, title);
            |shown| == if c.Some? && !IsBlank(c.value) then 1 else 0
  {
    ResumeContentKeys(sections);
    ResumeContentLastWins(sections, title);
    OneHighlightPerSection(ResumeContentOf(sections), draws, title);
  }

  // ---------------------------------------------------------------------------
  // Colours and the job-description tab

  /** `getImportanceColor(importance)`: red, amber and blue for high, medium and low; otherwise none. */
  function ImportanceColor(importance: string): (c: string)
    ensures importance == "high" ==> c == "text-red-600"
    ensures importance == "medium" ==> c == "text-amber-600"
    ensures importance == "low" ==> c == "text-blue-600"
    ensures c == "" <==> importance !in ["high", "medium", "low"]
  {
    match importance
    case "high" => "text-red-600"
    case "medium" => "text-amber-600"
    case "low" => "text-blue-600"
    case _ => ""
  }

  /** Every importance level of a gap gets a colour of its own. */
  lemma ImportanceColorsDistinct(a: Importance, b: Importance)
    ensures ImportanceColor(ImportanceName(a)) != ""
    ensures a != b ==> ImportanceColor(ImportanceName(a)) != ImportanceColor(ImportanceName(b))
  {
    assert "text-red-600"[5] == 'r' && "text-amber-600"[5] == 'a' && "text-blue-600"[5] == 'b';
  }

  /** What the page keeps as the job description: the stored text unless it is missing or empty. */
  function ShownJobDescription(store: Store): string {
    match ReadText(store, JobDescriptionKey)
    case Some(jd) => jd
    case None => ""
  }

  /** The job description that is analysed: the stored text when it is not blank. */
  function JobDescriptionToAnalyse(store: Store): (jd: Option<string>)
    ensures jd.Some? ==> ReadText(store, JobDescriptionKey) == jd && !IsBlank(jd.value)
    ensures jd.None? ==> ReadText(store, JobDescriptionKey).None? || IsBlank(ReadText(store, JobDescriptionKey).value)
  {
    match ReadText(store, JobDescriptionKey)
    case Some(jd) => if jd != "" && Trim(jd) != "" then Some(jd) else None
    case None => None
  }

  /**
   * The job-description tab is enabled whenever the job description is
   * analysed, but not only then: a job description of spaces enables it
   * while no analysis runs.
   */
  lemma JobDescriptionTab(store: Store)
    ensures ShownJobDescription(store) != "" <==>
              ReadText(store, JobDescriptionKey).Some? && ReadText(store, JobDescriptionKey).value != ""
    ensures JobDescriptionToAnalyse(store).Some? ==> ShownJobDescription(store) != ""
    ensures var spaces := store[JobDescriptionKey := Text(" ")];
            ShownJobDescription(spaces) != "" && JobDescriptionToAnalyse(spaces).None?
  {
    var spaces := store[JobDescriptionKey := Text(" ")];
    assert ReadText(spaces, JobDescriptionKey) == Some(" ");
    assert TrimStart(" ") == "";
  }

  // ---------------------------------------------------------------------------
  // The page

  const MissingDataError: string := "Không tìm thấy dữ liệu hồ sơ. Vui lòng quay lại trang tải lên."
  const AnalysisError: string := "Đã xảy ra lỗi khi phân tích hồ sơ. Vui lòng thử lại."

  /** Which service call, if any, throws. */
  datatype BackendOutcome = Succeeds | ResumeAnalysisFails | JobDescriptionAnalysisFails

  /** A call made to the analysis service, with its arguments. */
  datatype BackendCall =
    | AnalyzeResumeCall(resumeContent: JsObject.Object)
    | AnalyzeJobDescriptionCall(resumeContent: JsObject.Object, jobDescription: string)

  /** The page's state hooks, plus the toasts and navigations emitted and the service calls made. */
  datatype PageState = PageState(
    resumeSections: seq<ResumeSection>,
    jobDescription: string,
    isLoading: bool,
    improvements: seq<Improvement>,
    improvedContent: JsObject.Object,
    matches: seq<JobMatch>,
    gaps: seq<JobGap>,
    overallMatch: real,
    events: seq<Event>,
    calls: seq<BackendCall>)

  /** The state the page is mounted with. */
  const MountState: PageState := PageState([], "", true, [], [], [], [], 0.0, [], [])

  /**
   * What `analyzeResume` returns for the dictionary built from the stored
   * sections (nothing when there are none).
   */
  function StoredAnalysis(store: Store, draws: nat -> real): GeminiApi.ResumeAnalysis
    requires GeminiApi.ValidDraws(draws)
  {
    match ReadSections(store, ResumeSectionsForEvalKey)
    case None => GeminiApi.ResumeAnalysis([], [])
    case Some(sections) => GeminiApi.Analysis(ResumeContentOf(sections), draws)
  }

  /**
   * The state after the mount effect has run to its end, when the résumé
   * analysis, if it succeeds, returns `analysis`.
   */
  function Loaded(store: Store, outcome: BackendOutcome, analysis: GeminiApi.ResumeAnalysis): PageState {
    match ReadSections(store, ResumeSectionsForEvalKey)
    case None => MountState.(events := [ToastError(MissingDataError), Navigate(UploadRoute)])
    case Some(sections) =>
      var resumeContent := ResumeContentOf(sections);
      var shown := MountState.(resumeSections := sections, jobDescription := ShownJobDescription(store),
                               isLoading := false, calls := [AnalyzeResumeCall(resumeContent)]);
      if outcome == ResumeAnalysisFails then shown.(events := [ToastError(AnalysisError)])
      else
        var analysed := shown.(improvements := analysis.improvements, improvedContent := analysis.improvedContent);
        WithJobDescription(analysed, resumeContent, JobDescriptionToAnalyse(store), outcome)
  }

  /** The state once the résumé analysis has returned `analysis`. */
  function AnalysedState(sections: seq<ResumeSection>, jobDescription: string,
                         analysis: GeminiApi.ResumeAnalysis): PageState
  {
    MountState.(resumeSections := sections, jobDescription := jobDescription, isLoading := false,
                calls := [AnalyzeResumeCall(ResumeContentOf(sections))],
                improvements := analysis.improvements, improvedContent := analysis.improvedContent)
  }

  lemma LoadedAnalysed(store: Store, outcome: BackendOutcome, analysis: GeminiApi.ResumeAnalysis)
    requires ReadSections(store, ResumeSectionsForEvalKey).Some? && outcome != ResumeAnalysisFails
    ensures var sections := ReadSections(store, ResumeSectionsForEvalKey).value;
            Loaded(store, outcome, analysis) ==
              WithJobDescription(AnalysedState(sections, ShownJobDescription(store), analysis),
                                 ResumeContentOf(sections), JobDescriptionToAnalyse(store), outcome)
  {
  }

  lemma LoadedAnalysisFails(store: Store, analysis: GeminiApi.ResumeAnalysis)
    requires ReadSections(store, ResumeSectionsForEvalKey).Some?
    ensures var sections := ReadSections(store, ResumeSectionsForEvalKey).value;
            Loaded(store, ResumeAnalysisFails, analysis) ==
              MountState.(resumeSections := sections, jobDescription := ShownJobDescription(store),
                          isLoading := false, calls := [AnalyzeResumeCall(ResumeContentOf(sections))],
                          events := [ToastError(AnalysisError)])
  {
  }

  /** The job-description step of the mount effect, for the job description to analyse, if any. */
  function WithJobDescription(s: PageState, resumeContent: JsObject.Object, jd: Option<string>,
                              outcome: BackendOutcome): PageState
  {
    match jd
    case None => s
    case Some(jd) =>
      var called := s.(calls := s.calls + [AnalyzeJobDescriptionCall(resumeContent, jd)]);
      if outcome == JobDescriptionAnalysisFails then called.(events := s.events + [ToastError(AnalysisError)])
      else
        var jdAnalysis := GeminiApi.AnalyzeJobDescription(resumeContent, jd);
        called.(matches := jdAnalysis.matches, gaps := jdAnalysis.gaps, overallMatch := jdAnalysis.overallMatch)
  }

  /**
   * The job description the loaded page keeps: the shown one once the
   * sections are found, and none when they are missing.
   */
  lemma LoadedJobDescription(store: Store, outcome: BackendOutcome, analysis: GeminiApi.ResumeAnalysis)
    ensures Loaded(store, outcome, analysis).jobDescription ==
              if ReadSections(store, ResumeSectionsForEvalKey).Some? then ShownJobDescription(store) else ""
  {
  }

  /** Without stored sections the page reports the missing data, goes back to upload and calls nothing. */
  lemma LoadWithoutSections(store: Store, outcome: BackendOutcome, analysis: GeminiApi.ResumeAnalysis)
    ensures var s := Loaded(store, outcome, analysis);
            ReadSections(store, ResumeSectionsForEvalKey).None? <==> s.calls == []
    ensures var s := Loaded(store, outcome, analysis);
            ReadSections(store, ResumeSectionsForEvalKey).None? ==>
              s.events == [ToastError(MissingDataError), Navigate(UploadRoute)] && s.isLoading
              && s.improvements == [] && s.matches == []
    ensures var s := Loaded(store, outcome, analysis);
            ReadSections(store, ResumeSectionsForEvalKey).Some? ==> !s.isLoading && Navigate(UploadRoute) !in s.events
  {
  }

  /**
   * The job description is analysed exactly when the stored one is present
   * and not blank and the résumé analysis succeeded; if that analysis then
   * fails, the résumé improvements are kept and the matches and gaps stay
   * empty.
   */
  lemma LoadJobDescriptionGate(store: Store, outcome: BackendOutcome, analysis: GeminiApi.ResumeAnalysis)
    ensures var s := Loaded(store, outcome, analysis);
            (exists c :: c in s.calls && c.AnalyzeJobDescriptionCall?) <==>
              && ReadSections(store, ResumeSectionsForEvalKey).Some?
              && outcome != ResumeAnalysisFails
              && ReadText(store, JobDescriptionKey).Some?
              && !IsBlank(ReadText(store, JobDescriptionKey).value)
    ensures var s := Loaded(store, outcome, analysis);
            ReadSections(store, ResumeSectionsForEvalKey).Some? && outcome == JobDescriptionAnalysisFails ==>
              s.improvements == analysis.improvements && s.matches == [] && s.gaps == []
  {
    var s := Loaded(store, outcome, analysis);
    var sections := ReadSections(store, ResumeSectionsForEvalKey);
    var jd := JobDescriptionToAnalyse(store);
    if sections.Some? && outcome != ResumeAnalysisFails && jd.Some? {
      assert s.calls[1].AnalyzeJobDescriptionCall?;
    }
    if exists c :: c in s.calls && c.AnalyzeJobDescriptionCall? {
      assert sections.Some? && outcome != ResumeAnalysisFails && jd.Some?;
    }
  }

  /**
   * Every improvement shown is for one of the stored sections, and its
   * original line occurs in the content of the last section with that title.
   */
  lemma LoadedImprovementsBelong(store: Store, outcome: BackendOutcome, draws: nat -> real)
    requires GeminiApi.ValidDraws(draws)
    requires ReadSections(store, ResumeSectionsForEvalKey).Some?
    ensures var sections := ReadSections(store, ResumeSectionsForEvalKey).value;
            forall imp :: imp in Loaded(store, outcome, StoredAnalysis(store, draws)).improvements ==>
              Belongs(sections, imp)
  {
    var sections := ReadSections(store, ResumeSectionsForEvalKey).value;
    var analysis := StoredAnalysis(store, draws);
    AnalysedImprovementsBelong(sections, draws);
    LoadedImprovements(store, outcome, analysis);
  }

  /** The improvements shown are those of the analysis, or none if it failed. */
  lemma LoadedImprovements(store: Store, outcome: BackendOutcome, analysis: GeminiApi.ResumeAnalysis)
    requires ReadSections(store, ResumeSectionsForEvalKey).Some?
    ensures Loaded(store, outcome, analysis).improvements ==
              if outcome == ResumeAnalysisFails then [] else analysis.improvements
  {
  }

  /** An improvement for a section title that occurs, whose line occurs in that title's last content. */
  ghost predicate Belongs(sections: seq<ResumeSection>, imp: Improvement) {
    && (exists i :: 0 <= i < |sections| && sections[i].title == imp.section)
    && LastContent(sections, imp.section).Some?
    && Occurs(imp.original, LastContent(sections, imp.section).value)
  }

  lemma AnalysedImprovementsBelong(sections: seq<ResumeSection>, draws: nat -> real)
    requires GeminiApi.ValidDraws(draws)
    ensures forall imp :: imp in GeminiApi.Analysis(ResumeContentOf(sections), draws).improvements ==>
              Belongs(sections, imp)
  {
    var resumeContent := ResumeContentOf(sections);
    ResumeContentKeys(sections);
    GeminiApi.AnalysisSound(resumeContent, draws);
    var r := GeminiApi.Analysis(resumeContent, draws);
    forall j | 0 <= j < |r.improvements| ensures Belongs(sections, r.improvements[j]) {
      ImprovementBelongs(sections, draws, j, r.improvements[j], r.improvedContent[j]);
    }
  }

  lemma ImprovementBelongs(sections: seq<ResumeSection>, draws: nat -> real, j: nat,
                           imp: Improvement, improved: JsObject.Entry)
    requires GeminiApi.ValidDraws(draws)
    requires GeminiApi.SoundImprovement(ResumeContentOf(sections), draws, j, imp, improved)
    ensures Belongs(sections, imp)
  {
    var resumeContent := ResumeContentOf(sections);
    ResumeContentKeys(sections);
    ResumeContentLastWins(sections, imp.section);
    var content := JsObject.Get(resumeContent, imp.section).value;
    NonBlankLineOccurs(content, imp.original);
  }

  class EvaluationPage {
    var resumeSections: seq<ResumeSection>
    var jobDescription: string
    var isLoading: bool
    var improvements: seq<Improvement>
    var improvedContent: JsObject.Object
    var matches: seq<JobMatch>
    var gaps: seq<JobGap>
    var overallMatch: real
    var events: seq<Event>
    var calls: seq<BackendCall>

    function State(): PageState
      reads this
    {
      PageState(resumeSections, jobDescription, isLoading, improvements, improvedContent,
                matches, gaps, overallMatch, events, calls)
    }

    constructor ()
      ensures State() == MountState
    {
      resumeSections := [];
      jobDescription := "";
      isLoading := true;
      improvements := [];
      improvedContent := [];
      matches := [];
      gaps := [];
      overallMatch := 0.0;
      events := [];
      calls := [];
    }

    /** `disabled={!jobDescription}` on the job-description tab, negated. */
    predicate JobDescriptionTabEnabled()
      reads this
    {
      jobDescription != ""
    }

    /** The mount effect, run once on the freshly mounted page. */
    method Load(store: Store, outcome: BackendOutcome, draws: nat -> real)
      requires GeminiApi.ValidDraws(draws) && State() == MountState
      modifies this
      ensures State() == Loaded(store, outcome, StoredAnalysis(store, draws))
      ensures JobDescriptionTabEnabled() <==>
                ReadSections(store, ResumeSectionsForEvalKey).Some? && ReadText(store, JobDescriptionKey).Some?
                && ReadText(store, JobDescriptionKey).value != ""
    {
      var resumeData := ReadSections(store, ResumeSectionsForEvalKey);
      var jdData := ReadText(store, JobDescriptionKey);
      if resumeData.None? {
        events := events + [ToastError(MissingDataError), Navigate(UploadRoute)];
        return;
      }
      resumeSections := resumeData.value;
      if jdData.Some? && jdData.value != "" {
        jobDescription := jdData.value;
      }
      assert jobDescription == ShownJobDescription(store);
      AnalyseSections(store, outcome, draws);
      LoadedJobDescription(store, outcome, StoredAnalysis(store, draws));
      JobDescriptionTab(store);
    }

    /** The mount effect once the sections and the job description are shown. */
    method AnalyseSections(store: Store, outcome: BackendOutcome, draws: nat -> real)
      requires GeminiApi.ValidDraws(draws) && ReadSections(store, ResumeSectionsForEvalKey).Some?
      requires State() == MountState.(resumeSections := ReadSections(store, ResumeSectionsForEvalKey).value,
                                      jobDescription := ShownJobDescription(store))
      modifies this
      ensures State() == Loaded(store, outcome, StoredAnalysis(store, draws))
    {
      var resumeContent := BuildResumeContent(resumeSections);
      calls := calls + [AnalyzeResumeCall(resumeContent)];
      if outcome == ResumeAnalysisFails {
        events := events + [ToastError(AnalysisError)];
        isLoading := false;
        LoadedAnalysisFails(store, StoredAnalysis(store, draws));
        return;
      }
      var resumeAnalysis := GeminiApi.AnalyzeResume(resumeContent, draws);
      ShowAnalysis(store, outcome, resumeContent, resumeAnalysis);
    }

    /** The mount effect once the résumé analysis has returned. */
    method ShowAnalysis(store: Store, outcome: BackendOutcome, resumeContent: JsObject.Object,
                        resumeAnalysis: GeminiApi.ResumeAnalysis)
      requires ReadSections(store, ResumeSectionsForEvalKey).Some? && outcome != ResumeAnalysisFails
      requires resumeContent == ResumeContentOf(ReadSections(store, ResumeSectionsForEvalKey).value)
      requires State() == MountState.(resumeSections := ReadSections(store, ResumeSectionsForEvalKey).value,
                                      jobDescription := ShownJobDescription(store),
                                      calls := [AnalyzeResumeCall(resumeContent)])
      modifies this
      ensures State() == Loaded(store, outcome, resumeAnalysis)
    {
      improvements := resumeAnalysis.improvements;
      improvedContent := resumeAnalysis.improvedContent;
      ghost var analysed := State().(isLoading := false);
      assert analysed == AnalysedState(resumeSections, ShownJobDescription(store), resumeAnalysis);
      AnalyseJobDescription(resumeContent, JobDescriptionToAnalyse(store), outcome);
      LoadedAnalysed(store, outcome, resumeAnalysis);
    }

    /**
     * The job-description step: for a job description to analyse, the call is
     * made, and its result is shown or, if it fails, an error toast is added;
     * loading ends either way.
     */
    method AnalyseJobDescription(resumeContent: JsObject.Object, jd: Option<string>, outcome: BackendOutcome)
      modifies this
      ensures State() == WithJobDescription(old(State()), resumeContent, jd, outcome).(isLoading := false)
    {
      if jd.Some? {
        calls := calls + [AnalyzeJobDescriptionCall(resumeContent, jd.value)];
        if outcome == JobDescriptionAnalysisFails {
          events := events + [ToastError(AnalysisError)];
          isLoading := false;
          return;
        }
        var jdAnalysis := GeminiApi.AnalyzeJobDescription(resumeContent, jd.value);
        matches := jdAnalysis.matches;
        gaps := jdAnalysis.gaps;
        overallMatch := jdAnalysis.overallMatch;
      }
      isLoading := false;
    }
  }
}
