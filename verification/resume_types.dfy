/**
 * The records the theme generator passes around: the resume content it
 * renders, the request the prompt form sends, the themed result, and the
 * page state with its five-valued status.
 *
 * Clock values (`Date`) are opaque integers supplied by the caller.
 */
module ResumeTypes {
  import opened Wrappers

  datatype PersonalInfo = PersonalInfo(
    name: string,
    title: string,
    email: string,
    location: string,
    linkedin: Option<string>,
    github: Option<string>)

  datatype Experience = Experience(
    company: string,
    position: string,
    duration: string,
    location: string,
    achievements: seq<string>,
    technologies: seq<string>)

  datatype Education = Education(
    institution: string,
    degree: string,
    field: string,
    year: string,
    gpa: Option<string>,
    honors: Option<seq<string>>)

  datatype Project = Project(
    name: string,
    description: string,
    technologies: seq<string>,
    highlights: seq<string>,
    githubUrl: Option<string>,
    liveUrl: Option<string>)

  datatype SkillGroup = SkillGroup(category: string, items: seq<string>)

  datatype ResumeContent = ResumeContent(
    personalInfo: PersonalInfo,
    summary: string,
    experience: seq<Experience>,
    education: seq<Education>,
    projects: seq<Project>,
    skills: seq<SkillGroup>)

  /** What the prompt form hands to the page; `timestamp` is the submission time. */
  datatype ThemeRequest = ThemeRequest(userPrompt: string, timestamp: int)

  datatype ThemedResumeResult = ThemedResumeResult(
    id: string,
    theme: string,
    htmlContent: string,
    cssContent: string,
    jsContent: Option<string>,
    userPrompt: string,
    createdAt: int,
    isSecure: bool)

  datatype ThemeStatus = Idle | Generating | Success | Error | SecurityViolation

  /** The page state; absent optional members are `None`. */
  datatype ThemeState = ThemeState(
    status: ThemeStatus,
    result: Option<ThemedResumeResult>,
    error: Option<string>,
    progress: Option<int>)

  /** The state the page starts in. */
  const InitialState := ThemeState(Idle, None, None, None)
}
