/**
 * The upload page. Uploading a résumé replaces the sections with three
 * sample sections (the file is not read); uploading a job description
 * replaces the job-description text with a sample one; the text can also be
 * pasted. "Evaluate" and "mock interview" hand the sections (and, for the
 * evaluation, the job description) over to the next page through the
 * key-value store, but only once there are sections.
 *
 * The sections live in the store under "resumeSections": the page reads
 * them when it is mounted and writes them whenever it sets them. Fresh
 * identifiers (`uuidv4`) are inputs.
 */
module Upload {
  import opened Wrappers
  import opened Domain
  import Evaluation

  /** A file chosen by the user; only its identity matters here. */
  datatype UploadedFile = UploadedFile(name: string)

  const ResumeUploaded: string := "CV đã được tải lên và phân tích thành công"
  const JobDescriptionUploaded: string := "Mô tả công việc đã được tải lên thành công"
  const NoResumeYet: string := "Vui lòng tải lên CV trước"

  const ExperienceTitle: string := "Kinh nghiệm làm việc"
  const EducationTitle: string := "Học vấn"
  const SkillsTitle: string := "Kỹ năng"

  const ExperienceContent: string :=
    "Senior Developer tại ABC Tech (2018-Hiện tại)\n• Đã làm việc với React và TypeScript để phát triển ứng dụng web\n• Đã thực hiện tái cấu trúc codebase và tối ưu hóa hiệu suất\n\nDeveloper tại XYZ Solutions (2015-2018)\n• Phát triển các ứng dụng web sử dụng JavaScript và jQuery\n• Hợp tác với đội ngũ thiết kế để tạo giao diện người dùng"
  const EducationContent: string :=
    "Cử nhân Khoa học Máy tính\nĐại học ABC (2011-2015)\nTốt nghiệp loại giỏi"
  const SkillsContent: string :=
    "JavaScript, TypeScript, React, Node.js, HTML, CSS, Git, Agile"

  const SampleJobDescription: string :=
    "Position: Senior Frontend Developer\n\nResponsibilities:\n• Develop and maintain web applications using React, TypeScript, and GraphQL\n• Collaborate with designers and backend developers\n• Create reusable UI components\n\nRequirements:\n• 3+ years of experience with React\n• Strong knowledge of JavaScript and TypeScript\n• Experience with GraphQL and RESTful APIs\n• Experience with version control systems like Git\n• Knowledge of Docker is a plus"

  /** The sample sections a résumé upload produces, with three fresh identifiers. */
  function SampleSections(ids: seq<string>): (sections: seq<ResumeSection>)
    requires |ids| == 3 && ids[0] != ids[1] && ids[0] != ids[2] && ids[1] != ids[2]
    ensures |sections| == 3
    ensures sections[0].title == ExperienceTitle && sections[1].title == EducationTitle
            && sections[2].title == SkillsTitle
    ensures forall i, j :: 0 <= i < j < 3 ==> sections[i].id != sections[j].id && sections[i].title != sections[j].title
  {
    assert ExperienceTitle[0] == 'K' && EducationTitle[0] == 'H' && SkillsTitle[1] == 'ỹ' && ExperienceTitle[1] == 'i';
    [ ResumeSection(ids[0], ExperienceTitle, ExperienceContent),
      ResumeSection(ids[1], EducationTitle, EducationContent),
      ResumeSection(ids[2], SkillsTitle, SkillsContent) ]
  }

  /** The store after "Evaluate" with sections: the sections and the job description are handed over. */
  function EvaluateWrites(store: Store, sections: seq<ResumeSection>, jobDescription: string): (s: Store)
    ensures ReadSections(s, ResumeSectionsForEvalKey) == Some(sections)
    ensures ReadText(s, JobDescriptionKey) == Some(jobDescription)
    ensures forall k :: k != ResumeSectionsForEvalKey && k != JobDescriptionKey ==>
              (k in s <==> k in store) && (k in s ==> s[k] == store[k])
  {
    store[ResumeSectionsForEvalKey := SectionList(sections)][JobDescriptionKey := Text(jobDescription)]
  }

  /** The store after "mock interview" with sections: only the sections are handed over. */
  function InterviewWrites(store: Store, sections: seq<ResumeSection>): (s: Store)
    ensures ReadSections(s, ResumeSectionsForInterviewKey) == Some(sections)
    ensures forall k :: k != ResumeSectionsForInterviewKey ==> (k in s <==> k in store) && (k in s ==> s[k] == store[k])
  {
    store[ResumeSectionsForInterviewKey := SectionList(sections)]
  }

  /**
   * The hand-off to the evaluation page: after "Evaluate" the evaluation
   * page finds the sections (so it does not go back to upload) and keeps
   * the job description exactly when it is not empty.
   */
  lemma EvaluationFindsHandOff(store: Store, sections: seq<ResumeSection>, jobDescription: string)
    ensures var s := EvaluateWrites(store, sections, jobDescription);
            && ReadSections(s, ResumeSectionsForEvalKey).Some?
            && Evaluation.ShownJobDescription(s) == jobDescription
            && (Evaluation.JobDescriptionToAnalyse(s).Some? ==> Evaluation.JobDescriptionToAnalyse(s).value == jobDescription)
  {
    var s := EvaluateWrites(store, sections, jobDescription);
    assert ReadText(s, JobDescriptionKey) == Some(jobDescription);
  }

  /** `useLocalStorage("resumeSections", [])`: the kept sections, or none. */
  function KeptSections(store: Store): (sections: seq<ResumeSection>)
    ensures ReadSections(store, ResumeSectionsKey).None? ==> sections == []
    ensures ReadSections(store, ResumeSectionsKey).Some? ==> Some(sections) == ReadSections(store, ResumeSectionsKey)
  {
    match ReadSections(store, ResumeSectionsKey)
    case Some(sections) => sections
    case None => []
  }

  class UploadPage {
    var resumeFile: Option<UploadedFile>
    var jobDescriptionFile: Option<UploadedFile>
    var jobDescriptionText: string
    var resumeSections: seq<ResumeSection>
    var store: Store
    var events: seq<Event>

    /** The sections the page shows are the ones kept under "resumeSections". */
    predicate Valid()
      reads this
    {
      resumeSections == KeptSections(store)
    }

    /** The page as mounted on `store`: the sections are read back, if any were kept. */
    constructor (store: Store)
      ensures Valid()
      ensures resumeFile == None && jobDescriptionFile == None && jobDescriptionText == ""
      ensures this.store == store && events == []
    {
      resumeFile := None;
      jobDescriptionFile := None;
      jobDescriptionText := "";
      resumeSections := KeptSections(store);
      this.store := store;
      events := [];
    }

    /** `handleFileUpload(file)`: the sample sections replace the sections, and a success toast. */
    method HandleFileUpload(file: UploadedFile, ids: seq<string>)
      requires Valid()
      requires |ids| == 3 && ids[0] != ids[1] && ids[0] != ids[2] && ids[1] != ids[2]
      modifies this
      ensures Valid()
      ensures resumeFile == Some(file) && resumeSections == SampleSections(ids)
      ensures store == old(store)[ResumeSectionsKey := SectionList(SampleSections(ids))]
      ensures events == old(events) + [ToastSuccess(ResumeUploaded)]
      ensures jobDescriptionFile == old(jobDescriptionFile) && jobDescriptionText == old(jobDescriptionText)
    {
      resumeFile := Some(file);
      var sections := SampleSections(ids);
      resumeSections := sections;
      store := store[ResumeSectionsKey := SectionList(sections)];
      events := events + [ToastSuccess(ResumeUploaded)];
    }

    /** `handleJobDescriptionFileUpload(file)`: the sample text replaces any pasted text, and a success toast. */
    method HandleJobDescriptionFileUpload(file: UploadedFile)
      requires Valid()
      modifies this
      ensures Valid()
      ensures jobDescriptionFile == Some(file) && jobDescriptionText == SampleJobDescription
      ensures events == old(events) + [ToastSuccess(JobDescriptionUploaded)]
      ensures resumeFile == old(resumeFile) && resumeSections == old(resumeSections) && store == old(store)
    {
      jobDescriptionFile := Some(file);
      jobDescriptionText := SampleJobDescription;
      events := events + [ToastSuccess(JobDescriptionUploaded)];
    }

    /** Typing into the job-description box. */
    method PasteJobDescription(text: string)
      requires Valid()
      modifies this
      ensures Valid()
      ensures jobDescriptionText == text
      ensures resumeFile == old(resumeFile) && jobDescriptionFile == old(jobDescriptionFile)
      ensures resumeSections == old(resumeSections) && store == old(store) && events == old(events)
    {
      jobDescriptionText := text;
    }

    /**
     * `handleEvaluate`: without sections an error toast and nothing else;
     * otherwise the sections and the job description (even an empty one)
     * are handed over and the evaluation page is opened.
     */
    method HandleEvaluate()
      requires Valid()
      modifies this
      ensures Valid()
      ensures old(resumeSections) == [] ==> store == old(store) && events == old(events) + [ToastError(NoResumeYet)]
      ensures old(resumeSections) != [] ==>
                && store == EvaluateWrites(old(store), resumeSections, jobDescriptionText)
                && events == old(events) + [Navigate(EvaluationRoute)]
      ensures resumeFile == old(resumeFile) && jobDescriptionFile == old(jobDescriptionFile)
      ensures jobDescriptionText == old(jobDescriptionText) && resumeSections == old(resumeSections)
    {
      if |resumeSections| == 0 {
        events := events + [ToastError(NoResumeYet)];
        return;
      }
      store := store[ResumeSectionsForEvalKey := SectionList(resumeSections)];
      store := store[JobDescriptionKey := Text(jobDescriptionText)];
      events := events + [Navigate(EvaluationRoute)];
    }

    /**
     * `handleStartMockInterview`: without sections an error toast and
     * nothing else; otherwise only the sections are handed over and the
     * interview page is opened.
     */
    method HandleStartMockInterview()
      requires Valid()
      modifies this
      ensures Valid()
      ensures old(resumeSections) == [] ==> store == old(store) && events == old(events) + [ToastError(NoResumeYet)]
      ensures old(resumeSections) != [] ==>
                && store == InterviewWrites(old(store), resumeSections)
                && events == old(events) + [Navigate(MockInterviewRoute)]
      ensures resumeFile == old(resumeFile) && jobDescriptionFile == old(jobDescriptionFile)
      ensures jobDescriptionText == old(jobDescriptionText) && resumeSections == old(resumeSections)
    {
      if |resumeSections| == 0 {
        events := events + [ToastError(NoResumeYet)];
        return;
      }
      store := store[ResumeSectionsForInterviewKey := SectionList(resumeSections)];
      events := events + [Navigate(MockInterviewRoute)];
    }
  }
}
