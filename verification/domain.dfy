/**
 * The entities the pages and the mock service exchange, the browser's
 * key-value store that carries résumé data from one page to the next, and
 * the side effects (toasts and navigation) a page emits.
 */
module Domain {
  import opened Wrappers

  datatype ResumeSection = ResumeSection(id: string, title: string, content: string)

  datatype Improvement = Improvement(section: string, original: string, suggestion: string, reason: string)

  datatype JobMatch = JobMatch(skill: string, confidence: real)

  datatype Importance = High | Medium | Low

  /** The string the source uses for an importance level. */
  function ImportanceName(i: Importance): string {
    match i
    case High => "high"
    case Medium => "medium"
    case Low => "low"
  }

  datatype JobGap = JobGap(skill: string, importance: Importance, suggestion: string)

  datatype InterviewQuestion = InterviewQuestion(question: string, hint: string)

  // ---------------------------------------------------------------------------
  // The browser's localStorage. Values are strings in the browser; a list of
  // sections is kept as the list itself, so JSON.stringify / JSON.parse are
  // the identity here.

  datatype StoredValue = SectionList(sections: seq<ResumeSection>) | Text(text: string)

  type Store = map<string, StoredValue>

  const ResumeSectionsKey: string := "resumeSections"
  const ResumeSectionsForEvalKey: string := "resumeSectionsForEval"
  const ResumeSectionsForInterviewKey: string := "resumeSectionsForInterview"
  const JobDescriptionKey: string := "jobDescription"

  /** `JSON.parse(localStorage.getItem(key))` for a key that holds sections. */
  function ReadSections(store: Store, key: string): Option<seq<ResumeSection>> {
    if key in store && store[key].SectionList? then Some(store[key].sections) else None
  }

  /** `localStorage.getItem(key)` for a key that holds text. */
  function ReadText(store: Store, key: string): Option<string> {
    if key in store && store[key].Text? then Some(store[key].text) else None
  }

  // ---------------------------------------------------------------------------
  // Side effects: `toast.success`, `toast.error`, `navigate(route)`

  datatype Event = ToastSuccess(message: string) | ToastError(message: string) | Navigate(route: string)

  const UploadRoute: string := "/upload"
  const EvaluationRoute: string := "/evaluation"
  const MockInterviewRoute: string := "/mock-interview"
}
