# Résumé evaluation and mock interview: a verified model

The application lets a candidate upload a résumé and a job description, see
the résumé analysed section by section, with the job description matched
against it, and practise a mock interview whose answers are scored.
Everything runs against a mock analysis service. This project models four
parts of it in Dafny:

- **The mock service** (`gemini_api.dfy`, module `GeminiApi`).
  - Résumé analysis: for each non-blank section it picks one non-blank line
    with `Math.random`, rewrites that line according to the category of the
    section title, and replaces the line's first occurrence in the section.
  - Answer evaluation: a score clamped to [0.5, 0.95] from the answer's
    length, and feedback in three length tiers.
  - Two fixed tables: the interview questions and the job-description
    analysis.
- **The mock-interview page** (`mock_interview.dfy`, module `MockInterview`).
  - The class `Interview` is the page's state: questions, current index,
    started and finished flags, the transcript of evaluated answers, and the
    total time.
  - Its handlers are methods; the average score, `m:ss` formatting and the
    score colour are functions.
- **The evaluation page** (`evaluation.dfy`, module `Evaluation`).
  - The class `EvaluationPage` runs the mount effect: it reads the handed-over
    sections and job description, builds the title-to-content dictionary,
    calls the service, and shows each section's improvements.
  - Its result is specified by the function `Loaded`.
- **The upload page** (`upload.dfy`, module `Upload`).
  - The class `UploadPage` holds the chosen files, the job-description text
    and the sections kept in the key-value store.
  - Its handlers hand the data over to the next page through the store, and
    only once there are sections.

Supporting modules:

- `text.dfy` (`Text`) models the JavaScript string operations used:
  - `trim`
  - `split('\n')` and the blank-line filter
  - `indexOf`, `includes` and `replace` with a string pattern
  - `toLowerCase`
  - `length` in UTF-16 code units
  - decimal printing
- `js_object.dfy` (`JsObject`) models a `Record<string, string>` as an
  insertion-ordered list of entries. This matches JavaScript for keys that are
  ordinary property names, which is every section title the upload page
  produces.
- `domain.dfy` (`Domain`) holds the shared entities, the key-value store
  (`localStorage`) and the recorded side effects (toasts, navigation).
- `wrappers.dfy` (`Wrappers`) holds `Option`.

How the outside world is handled:

- `Math.random` is the parameter `draws`: its `k`-th value is what the `k`-th
  call returns, each in [0, 1).
- A failing service call is a parameter (`outcome`, `fetchFails`,
  `evaluationFails`). The mock never fails, but the pages handle the failure.
- `uuidv4` identifiers and chosen files are inputs.

## Model

| member | source | states |
|---|---|---|
| GeminiApi.AnalyzeResume | src/services/geminiApi.ts:41-113 | the imperative `forEach` over the entries returns exactly `Analysis`, the fold of one analysis step per entry in order |
| GeminiApi.AnalyzeEntry | src/services/geminiApi.ts:54-110 | one loop body: a blank section changes nothing; otherwise the content is stored, a line is picked with the next draw, one improvement is pushed and the stored content is rewritten |
| GeminiApi.AnalysisSound | src/services/geminiApi.ts:54-110 | for distinct titles the result has one improvement per non-blank section, in input order. The keys of `improvedContent` are exactly the non-blank titles, each once. Each improvement's `original` is the non-blank line picked by its draw, its suggestion and reason follow the title's category, and `improvedContent[section]` is the content with the first occurrence of `original` replaced by the suggestion |
| GeminiApi.AnalysisCovers | src/services/geminiApi.ts:54-61 | a title has an improved content exactly when its section content is present and not blank after trimming |
| GeminiApi.ShapedSectionKeys | src/services/geminiApi.ts:70-72 | in an analysis result, the `i`-th improvement is for the `i`-th improved section |
| GeminiApi.SectionsFollowKeys | src/services/geminiApi.ts:54-71 | improvements that follow distinct keys are for distinct sections, and for exactly those keys |
| GeminiApi.AnalyzeSectionAppends | src/services/geminiApi.ts:58-79 | a non-blank section with a new title has a non-blank line, and its step appends one improvement and one improved entry |
| GeminiApi.AnalyzeSectionUnfold | src/services/geminiApi.ts:61-107 | a non-blank section is first stored as is and then overwritten with the rewritten content |
| GeminiApi.AnalysisStep | src/services/geminiApi.ts:54-110 | one more entry keeps the result's shape (the invariant of the `forEach`) |
| GeminiApi.AnalysisStepNew | src/services/geminiApi.ts:58-79 | a non-blank entry with a new title keeps the result's shape |
| GeminiApi.NonBlankKeysMembers | src/services/geminiApi.ts:56 | a key is among the non-blank keys exactly when the object holds it with a value that is not blank |
| GeminiApi.NonBlankKeysAreKeys | src/services/geminiApi.ts:56 | every non-blank key is a key of the object |
| GeminiApi.NonBlankKeysAppend | src/services/geminiApi.ts:56 | appending an entry appends its key exactly when its value is not blank |
| GeminiApi.SoundImprovementAppend | src/services/geminiApi.ts:54-110 | a sound improvement stays sound when a later entry with a new title is added |
| GeminiApi.AllSoundExtend | src/services/geminiApi.ts:54-110 | all earlier improvements stay sound when an entry is added |
| GeminiApi.AllSoundAppend | src/services/geminiApi.ts:70-107 | the newly pushed improvement is sound |
| GeminiApi.ShapedAppend | src/services/geminiApi.ts:61-79 | appending a new title's improved entry keeps the keys of `improvedContent` distinct and equal to the non-blank titles |
| GeminiApi.RewritePhrase | src/services/geminiApi.ts:73 | the line is unchanged exactly when "đã làm việc với" does not occur in it case-insensitively; otherwise its first occurrence is replaced by "đã phát triển và triển khai" |
| GeminiApi.RewriteTrailing | src/services/geminiApi.ts:101 | a final "tốt" or "good", in any case, is replaced by "xuất sắc, đứng đầu 10% sinh viên"; any other line is kept |
| GeminiApi.ExperienceTitle | src/services/geminiApi.ts:67-68 | "Kinh nghiệm làm việc" is an experience title |
| GeminiApi.EducationTitle | src/services/geminiApi.ts:67-97 | "Học vấn" is neither an experience title nor a skills title, so it takes the trailing rewrite |
| GeminiApi.SkillsTitle | src/services/geminiApi.ts:67-83 | "Kỹ năng" is a skills title and not an experience title |
| GeminiApi.SkillsAndExperienceTitle | src/services/geminiApi.ts:67-83 | "Skills & Experience" falls into both categories |
| GeminiApi.SkillsAndExperienceIsSkills | src/services/geminiApi.ts:82-83 | "Skills & Experience" contains "skills" once lower-cased |
| GeminiApi.SkillsAndExperienceIsExperience | src/services/geminiApi.ts:67-68 | "Skills & Experience" contains "experience" once lower-cased |
| GeminiApi.SkillsAndExperienceRewrite | src/services/geminiApi.ts:67-95 | branch precedence: a title in both categories gets the experience rewrite and reason, not the skills note |
| GeminiApi.Absent | src/services/geminiApi.ts:67-83 | a pattern whose first character occurs at no possible start position is not included |
| GeminiApi.FoundLowered | src/services/geminiApi.ts:67-83 | a piece of the title whose lower case is the pattern makes `toLowerCase().includes(pattern)` true |
| GeminiApi.LowerPiece | src/services/geminiApi.ts:67 | lower-casing character by character gives the expected string |
| GeminiApi.IsExperienceTitle | src/services/geminiApi.ts:67-68 | the title, lower-cased, includes "kinh nghiệm" or "experience"; `ExperienceTitle` and `SkillsAndExperienceIsExperience` are examples |
| GeminiApi.IsSkillsTitle | src/services/geminiApi.ts:82-83 | the title, lower-cased, includes "kỹ năng" or "skills"; `SkillsTitle` and `SkillsAndExperienceIsSkills` are examples |
| GeminiApi.Suggestion | src/services/geminiApi.ts:67-108 | the rewrite by category, experience tested first: `RewritePhrase`, the skills note appended, or `RewriteTrailing`; `SkillsAndExperienceRewrite` shows the precedence |
| GeminiApi.Reason | src/services/geminiApi.ts:67-108 | the reason by the same category test and precedence as `Suggestion` |
| GeminiApi.AnalyzeSection | src/services/geminiApi.ts:54-110 | one pass of the `forEach`; `AnalyzeSectionAppends` and `AnalyzeSectionUnfold` state its effect |
| GeminiApi.Analysis | src/services/geminiApi.ts:41-113 | the result of `analyzeResume` as a fold over the entries; `AnalysisSound` and `AnalysisCovers` characterise it |
| GeminiApi.PickIndex | src/services/geminiApi.ts:65 | `Math.floor(Math.random() * lines.length)` is a valid index |
| GeminiApi.AnalyzeJobDescription | src/services/geminiApi.ts:116-147 | 4 matches and 2 gaps; every confidence and the overall match lie in [0, 1] |
| GeminiApi.GetInterviewQuestions | src/services/geminiApi.ts:150-183 | 5 questions |
| GeminiApi.QuestionsIgnoreJobType | src/services/geminiApi.ts:157-182 | every job type gets the same questions |
| GeminiApi.LengthScore | src/services/geminiApi.ts:193 | the clamped score lies in [0.5, 0.95] |
| GeminiApi.LengthScoreShape | src/services/geminiApi.ts:193 | the score is 0.5 up to length 50, length/100 from 50 to 95, and 0.95 from 95; it never decreases with length |
| GeminiApi.EvaluateAnswer | src/services/geminiApi.ts:186-225 | the score is `LengthScore` of the answer's length in UTF-16 code units, so it lies in [0.5, 0.95]. Below 50 code units: the "too short" feedback and its 3 points. From 50 to 199: the "medium" feedback and its 2 points. From 200: the "full" feedback and its 2 points |
| GeminiApi.ScoreByTier | src/services/geminiApi.ts:193-218 | a "too short" answer scores 0.5 and a "full" answer 0.95; only a "medium" answer scores strictly between |
| GeminiApi.SixteenCharacterAnswer | src/services/geminiApi.ts:193-205 | "I am a developer" scores 0.5 with the "too short" feedback and 3 points |
| Text.NonBlankMembers | src/services/geminiApi.ts:58 | `filter(line => line.trim())` keeps exactly the lines that are not blank |
| Text.NonBlankHasLine | src/services/geminiApi.ts:56-64 | content that is not blank has a non-blank line, so `lines.length > 0` whenever the section is processed |
| Text.NonBlankLineOccurs | src/services/geminiApi.ts:58-65 | every non-blank line, kept untrimmed, occurs in the content |
| Text.JoinLines | src/services/geminiApi.ts:58 | joining the pieces of `split('\n')` with newlines gives the content back |
| Text.LineHolding | src/services/geminiApi.ts:58 | every character other than a newline lies in some line |
| Text.PieceOccurs | src/services/geminiApi.ts:58 | each piece of a newline-joined text occurs in it |
| Text.BlankIffAllSpace | src/services/geminiApi.ts:56 | `!s.trim()` holds exactly when every character is whitespace |
| Text.Trim | src/services/geminiApi.ts:56 | `s.trim()`: `TrimStart` then `TrimEnd` |
| Text.IsBlank | src/services/geminiApi.ts:56 | `!s.trim()`; `BlankIffAllSpace` characterises it |
| Text.Lines | src/services/geminiApi.ts:58 | `split('\n')`: at least one piece and no newline in any piece; `JoinLines` shows that no character is lost |
| Text.NonBlank | src/services/geminiApi.ts:58 | the filter keeps at most the lines it is given; `NonBlankMembers` states which |
| Text.Contains | src/services/geminiApi.ts:67-83 | `includes`: `IndexOf` finds a match |
| Text.TrimStart | src/services/geminiApi.ts:56 | removes exactly the leading whitespace |
| Text.TrimEnd | src/services/geminiApi.ts:56 | removes exactly the trailing whitespace |
| Text.IndexOf | src/services/geminiApi.ts:78 | the index of the first occurrence, present exactly when the pattern occurs |
| Text.ReplaceFirst | src/services/geminiApi.ts:78-79 | `replace` with a string pattern rewrites the first occurrence, and leaves a string without one unchanged |
| Text.Utf16Length | src/services/geminiApi.ts:193 | `answer.length` counts UTF-16 code units: between one and two per character |
| Text.Lower | src/services/geminiApi.ts:67 | `toLowerCase` maps each character on its own |
| Text.Decimal | src/pages/MockInterview.tsx:99 | the decimal numeral: digits only, with no leading zero |
| Text.DecimalRoundTrip | src/pages/MockInterview.tsx:99 | reading the numeral back gives the number |
| JsObject.Keys | src/pages/Evaluation.tsx:67-70 | the keys of a record in insertion order |
| JsObject.Get | src/pages/Evaluation.tsx:67-70 | a key reads a value exactly when it is a key |
| JsObject.GetEntry | src/services/geminiApi.ts:78 | with distinct keys, reading a key gives the value stored with it |
| JsObject.Set | src/pages/Evaluation.tsx:69 | `o[k] = v` for an ordinary property name; `SetKeys`, `GetSet`, `SetAbsent` and `SetPresent` state its effect |
| JsObject.SetKeys | src/pages/Evaluation.tsx:69 | assigning a property keeps the order of the keys and appends a new key at the end |
| JsObject.SetKeepsDistinct | src/pages/Evaluation.tsx:69 | assigning a property keeps the keys distinct |
| JsObject.GetSet | src/pages/Evaluation.tsx:69 | after `o[k] = v`, `k` reads `v` and every other key reads what it read before |
| JsObject.GetAppend | src/services/geminiApi.ts:61 | reading a record with one more property at the end |
| JsObject.SetAbsent | src/services/geminiApi.ts:61 | assigning a new key appends it |
| JsObject.SetAbsentTwice | src/services/geminiApi.ts:61-79 | assigning a new key twice appends it once, with the second value |
| JsObject.SetPresent | src/services/geminiApi.ts:78 | assigning an existing key overwrites its property in place |
| JsObject.KeysAppend | src/services/geminiApi.ts:61 | the keys of a record with one more property at the end |
| JsObject.DistinctKeysAppend | src/services/geminiApi.ts:61 | keys stay distinct under appending exactly when the new key is new |
| MockInterview.Interview.constructor | src/pages/MockInterview.tsx:29-35 | the page mounts loading, with no questions, nothing answered and time 0 |
| MockInterview.Interview.FetchQuestions | src/pages/MockInterview.tsx:37-60 | loading ends either way. On success the questions are the general ones, whether or not interview data is stored. On failure there is an error toast and the questions stay empty. Nothing else changes |
| MockInterview.Interview.StartInterview | src/pages/MockInterview.tsx:62-64 | only `interviewStarted` changes, to true; the page invariant is kept |
| MockInterview.Interview.HandleAnswerSubmit | src/pages/MockInterview.tsx:66-94 | success appends exactly one result for `questions[index]` with the given answer and time and the service's evaluation, and adds `timeSpent` to the total. It moves to the next question, or after the last one finishes with the index unchanged. On failure there is an error toast and nothing else changes. The invariant (transcript length = index, or = number of questions once finished; total = sum of times) is kept |
| MockInterview.Interview.Restart | src/pages/MockInterview.tsx:244-250 | not started, not finished, index 0, empty transcript, time 0; the questions are untouched |
| MockInterview.ResultOf | src/pages/MockInterview.tsx:70-80 | the recorded result carries the question, answer and time given, and the score of `LengthScore` of the answer's length, which lies in [0.5, 0.95] |
| MockInterview.TranscriptAppend | src/pages/MockInterview.tsx:81-82 | appending the evaluated answer to the next question keeps the transcript invariant and adds exactly its time to the total |
| MockInterview.AverageScore | src/pages/MockInterview.tsx:108-112 | 0 for no answers; otherwise the average times the count is the sum of the scores |
| MockInterview.SumScores | src/pages/MockInterview.tsx:110 | the `reduce` over the scores; `SumScoresBounds` bounds it |
| MockInterview.SumScoresBounds | src/pages/MockInterview.tsx:110 | the sum of `n` scores in [lo, hi] lies in [n·lo, n·hi] |
| MockInterview.AverageWithinBounds | src/pages/MockInterview.tsx:108-112 | the average lies between any lower and upper bound of the scores |
| MockInterview.TranscriptAverage | src/pages/MockInterview.tsx:108-112 | the average of a transcript of evaluated answers lies in [0.5, 0.95] |
| MockInterview.FormatTime | src/pages/MockInterview.tsx:96-100 | digits, a colon, two digits. The part before the colon is the decimal numeral of `seconds div 60`, with no leading zero and the part after reads `seconds mod 60`, with a leading "0" exactly when it is below 10 |
| MockInterview.TwoDigits | src/pages/MockInterview.tsx:98-99 | two digits that read the remaining seconds, starting with "0" exactly below 10 |
| MockInterview.ScoreColor | src/pages/MockInterview.tsx:102-106 | green exactly from 0.8, amber exactly from 0.6 below 0.8, red exactly below 0.6 |
| MockInterview.AnswerColor | src/pages/MockInterview.tsx:102-106 | an evaluated answer is green exactly from 80 code units, amber from 60 to 79, red below 60 |
| Evaluation.ResumeContentOf | src/pages/Evaluation.tsx:67-70 | the dictionary the mount effect builds; `ResumeContentLastWins` and `ResumeContentKeys` characterise it |
| Evaluation.BuildResumeContent | src/pages/Evaluation.tsx:67-70 | the `forEach` that fills the dictionary returns `ResumeContentOf(sections)` |
| Evaluation.ResumeContentLastWins | src/pages/Evaluation.tsx:67-70 | each title reads the content of the last section with that title |
| Evaluation.ResumeContentKeys | src/pages/Evaluation.tsx:67-70 | the dictionary's keys are exactly the section titles, each once |
| Evaluation.SectionHighlights | src/pages/Evaluation.tsx:154-160 | a highlight is shown for a section exactly when some improvement for that title has its original, suggestion and reason |
| Evaluation.SectionHighlightsAppend | src/pages/Evaluation.tsx:154-160 | the filter keeps the original order: it distributes over concatenation |
| Evaluation.HighlightsOfDistinct | src/pages/Evaluation.tsx:154-160 | with distinct improvement sections, a title shows one highlight if some improvement is for it and none otherwise |
| Evaluation.OneHighlightPerSection | src/pages/Evaluation.tsx:148-160 | after the analysis of a dictionary with distinct titles, a title whose content is present and not blank shows exactly one highlight, and any other title none |
| Evaluation.SectionHighlightCount | src/pages/Evaluation.tsx:148-160 | on the page, a section shows exactly one highlight when the last section with its title has non-blank content, and none otherwise; an earlier section sharing that title shows the same |
| Evaluation.ImportanceColor | src/pages/Evaluation.tsx:98-109 | high, medium and low map to red, amber and blue; the result is empty exactly for any other string |
| Evaluation.ImportanceColorsDistinct | src/pages/Evaluation.tsx:98-109 | every importance level of a gap gets a colour, and different levels get different colours |
| Evaluation.ShownJobDescription | src/pages/Evaluation.tsx:62-64 | the stored job description, or empty when none is stored; `JobDescriptionTab` relates it to the analysed one |
| Evaluation.JobDescriptionToAnalyse | src/pages/Evaluation.tsx:80 | a job description is analysed only if stored and not blank; none is analysed if it is missing or blank |
| Evaluation.JobDescriptionTab | src/pages/Evaluation.tsx:62-64 | the tab is enabled exactly when a non-empty job description is stored. An analysed job description always enables it, and a job description of spaces enables it although none is analysed |
| Evaluation.EvaluationPage.constructor | src/pages/Evaluation.tsx:40-47 | the page mounts in `MountState`: nothing shown, loading |
| Evaluation.EvaluationPage.Load | src/pages/Evaluation.tsx:49-96 | the state after the mount effect is `Loaded` of the store, the outcome and the analysis of the stored sections. The job-description tab is then enabled exactly when the sections were found and a non-empty job description is stored |
| Evaluation.EvaluationPage.JobDescriptionTabEnabled | src/pages/Evaluation.tsx:130 | the tab's `disabled={!jobDescription}`, negated; `Load` states when it holds |
| Evaluation.LoadedJobDescription | src/pages/Evaluation.tsx:51-64 | the loaded page keeps the shown job description once the sections are found, and none when they are missing |
| Evaluation.EvaluationPage.AnalyseSections | src/pages/Evaluation.tsx:66-95 | from the sections shown, the effect ends in `Loaded` |
| Evaluation.EvaluationPage.ShowAnalysis | src/pages/Evaluation.tsx:76-87 | from the returned analysis, the effect ends in `Loaded` |
| Evaluation.EvaluationPage.AnalyseJobDescription | src/pages/Evaluation.tsx:80-92 | the job-description step: the call is made only for a job description to analyse; its result or an error toast follows, and loading ends either way |
| Evaluation.Loaded | src/pages/Evaluation.tsx:49-96 | the page state after the mount effect; the `Load*` lemmas state its cases |
| Evaluation.WithJobDescription | src/pages/Evaluation.tsx:80-92 | the job-description step; `LoadJobDescriptionGate` states when it calls the service and what a failure leaves |
| Evaluation.LoadWithoutSections | src/pages/Evaluation.tsx:51-59 | no service call is made exactly when the sections are missing. Missing sections mean an error toast, navigation to `/upload`, still loading and nothing shown. With sections, loading ends and there is no navigation back |
| Evaluation.LoadJobDescriptionGate | src/pages/Evaluation.tsx:80-92 | the job description is analysed exactly when sections are stored, the résumé analysis succeeded and the stored job description is present and not blank. If that analysis fails, the improvements stay while matches and gaps stay empty |
| Evaluation.LoadedImprovements | src/pages/Evaluation.tsx:75-91 | the improvements shown are those of the analysis, or none if it failed |
| Evaluation.LoadedImprovementsBelong | src/pages/Evaluation.tsx:67-76 | every improvement shown is for a stored section title, and its original line occurs in that title's last content |
| Evaluation.AnalysedImprovementsBelong | src/pages/Evaluation.tsx:67-75 | every improvement the analysis returns is for a section title and its line occurs in that title's last content |
| Evaluation.ImprovementBelongs | src/pages/Evaluation.tsx:67-75 | a sound improvement of the built dictionary belongs to the sections |
| Evaluation.LoadedAnalysed | src/pages/Evaluation.tsx:75-85 | after a successful résumé analysis the state is the analysed state followed by the job-description step |
| Evaluation.LoadedAnalysisFails | src/pages/Evaluation.tsx:88-92 | a failed résumé analysis leaves the sections shown, an error toast, loading over and nothing else |
| Upload.SampleSections | src/pages/Upload.tsx:32-48 | three sections titled "Kinh nghiệm làm việc", "Học vấn" and "Kỹ năng", in that order, with distinct ids and distinct titles |
| Upload.KeptSections | src/pages/Upload.tsx:25 | the sections kept under "resumeSections", or none |
| Upload.EvaluateWrites | src/pages/Upload.tsx:71-72 | the sections are readable under `resumeSectionsForEval` and the text under `jobDescription`; every other key is unchanged |
| Upload.InterviewWrites | src/pages/Upload.tsx:86 | the sections are readable under `resumeSectionsForInterview`; every other key, `jobDescription` included, is unchanged |
| Upload.EvaluationFindsHandOff | src/pages/Upload.tsx:71-75 | after "Evaluate" the evaluation page finds the sections, shows the job description as typed, and analyses it only as typed |
| Upload.UploadPage.constructor | src/pages/Upload.tsx:22-25 | no files, an empty job description, the kept sections, the store untouched |
| Upload.UploadPage.HandleFileUpload | src/pages/Upload.tsx:27-52 | the file is recorded, the sample sections replace the sections and are kept in the store, and a success toast follows; the job description is untouched |
| Upload.UploadPage.HandleJobDescriptionFileUpload | src/pages/Upload.tsx:54-61 | the file is recorded, the sample job description replaces any pasted text, and a success toast follows; sections and store are untouched |
| Upload.UploadPage.PasteJobDescription | src/pages/Upload.tsx:143 | only the job-description text changes |
| Upload.UploadPage.HandleEvaluate | src/pages/Upload.tsx:63-76 | with no sections: an error toast, no store write, no navigation. Otherwise the sections and the job description (even an empty one) are written and the page navigates to `/evaluation` |
| Upload.UploadPage.HandleStartMockInterview | src/pages/Upload.tsx:78-90 | with no sections: an error toast and nothing written. Otherwise only the interview sections are written and the page navigates to `/mock-interview` |

## Left out

- Timing and async: the artificial delays, promises and re-renders are left out. Each handler and each mount effect is one atomic step, so a second submit before an evaluation returns is not modelled.
- Console output (`console.log`, `console.error`) is left out.
- The rendered markup, styles, progress bars and percentage display are left out; this includes `toFixed` and `Math.round`.
- The highlighted-text component and the job-description analysis rendering are not part of this model.
- `Header.tsx` and `NotFound.tsx` are not part of this model; they only lay out pages and navigate.
- `useLocalStorage` is not part of this model. It is assumed to read the key when the page mounts and to write the key whenever the sections are set.
- Store values: `JSON.stringify`/`JSON.parse` are the identity here.
  - A value is either a list of sections or a text.
  - A key holding the wrong kind of value reads as missing; a string that does not parse is not modelled.
- Whether a handler can be reached is decided by which screen is rendered, not by the handler. `MockInterview.Interview.StartInterview` and `MockInterview.Interview.HandleAnswerSubmit` therefore require the state in which their button is shown.
- Rendering with an empty question list, which reads the question at index 0, is left out.
- The evaluation page's mount effect re-runs when `navigate` changes; this is left out, and it runs once from the mounted state.
- JavaScript numbers are exact reals here; float rounding in `answer.length / 100` and in the average is not modelled.
- `toLowerCase` is modelled for ASCII, Latin-1 and the Vietnamese letters; other characters are left unchanged rather than lower-cased.
- The case-insensitive patterns `/đã làm việc với/i` and `/tốt$|good$/i` are matched on the lower-cased line.
- JavaScript key order and the `__proto__` setter are not modelled: a section title that is an array index (such as "2020") is enumerated before the other titles in numeric order, and a title `__proto__` creates no property. For such titles, `JsObject.Set`, `Evaluation.ResumeContentOf`, `Evaluation.ResumeContentKeys`, `Evaluation.OneHighlightPerSection` and `Evaluation.SectionHighlightCount` do not describe what the page does: the draws are handed out in a different order and a `__proto__` section is never analysed.
- `$` patterns in a `String.replace` replacement string are taken literally. The JavaScript expansion of `$&` and the like is not modelled.
- `Math.random` is the parameter `draws`, and `uuidv4` identifiers are inputs required to be distinct.
- File contents are never read by the source; a file is only its name here.
- GeminiApi.AnalyzeJobDescription: states the counts and bounds of the fixed table, not its skill names and suggestion texts.
- GeminiApi.GetInterviewQuestions: states the number of questions and that the job type is ignored, not the question and hint texts.
- Upload.SampleSections: states the titles, their order and the distinct ids, not the sample section contents.
- Text.Utf16Length: states bounds only.
