/**
 * The resume record and the operations of the builder component that
 * replace it: each builds a new record from the previous one with object
 * spread, `.map` and `.filter`, so each is a function from the old value.
 * Identifiers of new entries come from the wall clock in the component;
 * here they are a parameter.
 */
module Resume {

  import opened Collections
  import Text
  import Contact
  import Experience
  import Education
  import Project
  import Achievement
  import Certification

  datatype ResumeData = ResumeData(
    contact: Contact.ContactInfo,
    summary: string,
    experience: seq<Experience.WorkExperience>,
    education: seq<Education.Education>,
    skills: seq<string>,
    projects: seq<Project.Project>,
    achievements: seq<Achievement.Achievement>,
    certifications: seq<Certification.Certification>)

  /**
   * The part of the component's state these operations touch: the record,
   * the text typed into the new-skill box, and whether the sample is shown.
   */
  datatype Builder = Builder(resume: ResumeData, newSkill: string, showSampleData: bool)

  /** The bundled example record the component starts with. */
  const SampleResumeData: ResumeData :=
    ResumeData(
      contact := Contact.ContactInfo("Amit Gupta", "amit.gupta@email.com", "+91 98765 43210", "Mumbai, Maharashtra", "https://amitgupta.dev", "linkedin.com/in/amit-gupta-dev", "github.com/amit-gupta"),
      summary := "Passionate 4th-year Computer Engineering student at Don Bosco Institute of Technology with strong foundation in full-stack development, data structures, and algorithms. Experienced in building scalable web applications using modern technologies. Seeking software engineering opportunities to contribute to innovative projects and grow professionally in the tech industry.",
      experience := [
        Experience.WorkExperience("1", "TechStart Solutions", "Software Development Intern", "2024-06", "2024-08", false, "Developed and maintained React-based web applications serving 10,000+ users. Collaborated with senior developers to implement new features and optimize application performance by 25%. Participated in code reviews and agile development processes, contributing to 3 major product releases. Implemented responsive design principles and improved user experience metrics."),
        Experience.WorkExperience("2", "DBIT Innovation Lab", "Research Assistant", "2023-09", "", true, "Leading a team of 4 students in developing machine learning models for predictive analytics. Published research paper on 'Optimizing Neural Networks for Edge Computing' in IEEE conference. Mentoring junior students in programming fundamentals and project development. Secured funding of ₹2,50,000 for research project from university grants.")
      ],
      education := [
        Education.Education("1", "Don Bosco Institute of Technology (DBIT)", "Bachelor of Engineering", "Computer Engineering", "2021-08", "2025-05", "8.7/10.0"),
        Education.Education("2", "St. Xavier's Junior College", "Higher Secondary Certificate", "Science (PCM)", "2019-06", "2021-03", "92.5%")
      ],
      skills := ["JavaScript", "TypeScript", "React", "Node.js", "Python", "Java", "C++", "MongoDB", "PostgreSQL", "Git", "Docker", "AWS", "Machine Learning", "Data Structures", "Algorithms", "System Design", "Agile Development", "REST APIs", "GraphQL"],
      projects := [
        Project.Project("1", "EcoTrack - Carbon Footprint Tracker", "Full-stack web application helping users track and reduce their carbon footprint. Features include activity logging, analytics dashboard, and personalized recommendations. Implemented real-time data visualization using Chart.js and user authentication with JWT. Achieved 95% user satisfaction rating and 40% reduction in user carbon footprint.", "React, Node.js, Express, MongoDB, Chart.js, JWT, AWS, Docker", "https://ecotrack-demo.vercel.app", "https://github.com/amit-gupta/ecotrack"),
        Project.Project("2", "SmartLibrary Management System", "Comprehensive library management system with features for book cataloging, member management, and automated fine calculation. Includes QR code integration for quick book checkout and return processes. Reduced manual processing time by 60% and improved library efficiency. Deployed for 3 college libraries serving 5000+ students.", "Java, Spring Boot, MySQL, Thymeleaf, Bootstrap, QR Code API", "", "https://github.com/amit-gupta/smart-library"),
        Project.Project("3", "AI-Powered Code Review Assistant", "Machine learning model that analyzes code quality and suggests improvements. Trained on 50,000+ code samples with 85% accuracy in detecting common programming issues and security vulnerabilities. Integrated with GitHub API for seamless workflow. Featured in university tech showcase and received recognition from industry experts.", "Python, TensorFlow, Flask, Docker, GitHub API, NLP", "", "https://github.com/amit-gupta/ai-code-reviewer")
      ],
      achievements := [
        Achievement.Achievement("1", "Winner - National Level Hackathon 'CodeFest 2024'", "Led a team of 4 to develop an innovative healthcare management system using AI and blockchain technology. Competed against 200+ teams from across India and secured first place with a cash prize of ₹1,00,000. Solution focused on secure patient data management and predictive health analytics.", "2024-03", "Indian Institute of Technology, Delhi"),
        Achievement.Achievement("2", "Best Research Paper Award", "Received recognition for research paper on 'Optimizing Neural Networks for Edge Computing' at IEEE International Conference on Computer Science and Engineering. Paper cited by 15+ researchers and contributed to advancing edge computing research in India.", "2024-01", "IEEE Computer Society"),
        Achievement.Achievement("3", "Dean's List - Academic Excellence", "Consistently maintained GPA above 8.5 for 6 consecutive semesters. Recognized for outstanding academic performance in Computer Engineering program. Received merit scholarship of ₹50,000 for academic excellence.", "2023-12", "Don Bosco Institute of Technology"),
        Achievement.Achievement("4", "Google Summer of Code Participant", "Selected among top 1% of applicants worldwide to contribute to open-source project 'TensorFlow Lite'. Implemented optimization algorithms for mobile deployment, improving inference speed by 30%. Mentored by Google engineers and contributed 15+ commits to the main repository.", "2023-08", "Google")
      ],
      certifications := [
        Certification.Certification("1", "AWS Certified Solutions Architect - Associate", "Amazon Web Services", "2024-02", "2027-02", "AWS-ASA-2024-AG789", "https://aws.amazon.com/verification"),
        Certification.Certification("2", "Google Cloud Professional Cloud Developer", "Google Cloud", "2023-11", "2025-11", "GCP-PCD-2023-AG456", "https://cloud.google.com/certification"),
        Certification.Certification("3", "Microsoft Azure Fundamentals (AZ-900)", "Microsoft", "2023-09", "", "MS-AZ900-2023-AG123", "https://docs.microsoft.com/en-us/learn/certifications"),
        Certification.Certification("4", "Oracle Certified Professional, Java SE 11 Developer", "Oracle", "2023-06", "", "OCP-JAVA11-2023-AG321", "https://education.oracle.com/certification")
      ])

  /** The state when the component mounts. */
  const Initial: Builder := Builder(SampleResumeData, "", true)

  /** At mount the sample is shown; clearing and then loading the sample again returns to that state. */
  lemma InitialIsSample()
    ensures Initial.resume == SampleResumeData && Initial.showSampleData && Initial.newSkill == ""
    ensures LoadSampleData(ClearData(Initial)) == Initial
  {
  }

  /** `loadSampleData`: the sample record again; the pending skill text is kept. */
  function LoadSampleData(b: Builder): (r: Builder)
    ensures r.resume == SampleResumeData && r.showSampleData
    ensures r.newSkill == b.newSkill
  {
    b.(resume := SampleResumeData, showSampleData := true)
  }

  /** `clearData`: every contact field, the summary and every list empty; the pending skill text is kept. */
  function ClearData(b: Builder): (r: Builder)
    ensures forall f :: Contact.Get(r.resume.contact, f) == ""
    ensures r.resume.summary == "" && r.resume.skills == []
    ensures r.resume.experience == [] && r.resume.education == [] && r.resume.projects == []
    ensures r.resume.achievements == [] && r.resume.certifications == []
    ensures !r.showSampleData && r.newSkill == b.newSkill
  {
    Builder(ResumeData(Contact.Blank(), "", [], [], [], [], [], []), b.newSkill, false)
  }

  /** `updateContact(field, value)`: that contact field changes and nothing else in the record does. */
  function UpdateContact(d: ResumeData, f: Contact.Field, v: string): (r: ResumeData)
    ensures r.(contact := d.contact) == d
    ensures forall g :: Contact.Get(r.contact, g) == if g == f then v else Contact.Get(d.contact, g)
  {
    d.(contact := Contact.Set(d.contact, f, v))
  }

  /** Writing one contact field twice leaves the last value. */
  lemma ContactLastWriteWins(d: ResumeData, f: Contact.Field, v: string, w: string)
    ensures UpdateContact(UpdateContact(d, f, v), f, w) == UpdateContact(d, f, w)
  {
  }

  /** Writes to two different contact fields do not interfere. */
  lemma ContactUpdatesCommute(d: ResumeData, f: Contact.Field, g: Contact.Field, v: string, w: string)
    requires f != g
    ensures UpdateContact(UpdateContact(d, f, v), g, w) == UpdateContact(UpdateContact(d, g, w), f, v)
  {
  }

  // ---- experience ----

  /** `addExperience`: a blank entry with identifier `id` goes at the end; the rest of the record is unchanged. */
  function AddExperience(d: ResumeData, id: string): (r: ResumeData)
    ensures r.(experience := d.experience) == d
    ensures |r.experience| == |d.experience| + 1 && r.experience[..|d.experience|] == d.experience
    ensures r.experience[|d.experience|] == Experience.Blank(id)
  {
    d.(experience := d.experience + [Experience.Blank(id)])
  }

  /** `updateExperience`: every entry with identifier `id` is replaced at its position by its edited copy; every other entry and the rest of the record are unchanged. */
  function UpdateExperience(d: ResumeData, id: string, edit: Experience.Edit): (r: ResumeData)
    ensures r.(experience := d.experience) == d
    ensures |r.experience| == |d.experience|
    ensures forall i :: 0 <= i < |d.experience| ==>
      r.experience[i] == if d.experience[i].id == id then Experience.Set(d.experience[i], edit) else d.experience[i]
  {
    d.(experience := UpdateWhere(d.experience, Experience.Key, id, e => Experience.Set(e, edit)))
  }

  /** `removeExperience`: every entry with identifier `id` is dropped, the others keep their order; the rest of the record is unchanged. */
  function RemoveExperience(d: ResumeData, id: string): (r: ResumeData)
    ensures r.(experience := d.experience) == d
    ensures FiltersOut(r.experience, d.experience, Experience.Key, id)
  {
    d.(experience := RemoveWhere(d.experience, Experience.Key, id))
  }

  /** Adding an entry under an identifier not in use and removing that identifier gives back the record. */
  lemma AddThenRemoveExperience(d: ResumeData, id: string)
    requires forall i :: 0 <= i < |d.experience| ==> d.experience[i].id != id
    ensures RemoveExperience(AddExperience(d, id), id) == d
  {
    AddThenRemove(d.experience, Experience.Key, Experience.Blank(id));
  }

  /** Editing a field other than the identifier and then removing the entry is the removal alone. */
  lemma UpdateThenRemoveExperience(d: ResumeData, id: string, edit: Experience.Edit)
    requires !(edit.Text? && edit.field == Experience.Id)
    ensures RemoveExperience(UpdateExperience(d, id, edit), id) == RemoveExperience(d, id)
  {
    forall x: Experience.WorkExperience
      ensures Experience.Key(Experience.Set(x, edit)) == Experience.Key(x)
    {
      assert Experience.Get(Experience.Set(x, edit), Experience.Id) == Experience.Get(x, Experience.Id);
    }
    UpdateThenRemove(d.experience, Experience.Key, id, e => Experience.Set(e, edit));
  }

  // ---- education ----

  /** `addEducation`: a blank entry with identifier `id` goes at the end; the rest of the record is unchanged. */
  function AddEducation(d: ResumeData, id: string): (r: ResumeData)
    ensures r.(education := d.education) == d
    ensures |r.education| == |d.education| + 1 && r.education[..|d.education|] == d.education
    ensures r.education[|d.education|] == Education.Blank(id)
  {
    d.(education := d.education + [Education.Blank(id)])
  }

  /** `updateEducation`: every entry with identifier `id` is replaced at its position by its edited copy; every other entry and the rest of the record are unchanged. */
  function UpdateEducation(d: ResumeData, id: string, f: Education.Field, v: string): (r: ResumeData)
    ensures r.(education := d.education) == d
    ensures |r.education| == |d.education|
    ensures forall i :: 0 <= i < |d.education| ==>
      r.education[i] == if d.education[i].id == id then Education.Set(d.education[i], f, v) else d.education[i]
  {
    d.(education := UpdateWhere(d.education, Education.Key, id, e => Education.Set(e, f, v)))
  }

  /** `removeEducation`: every entry with identifier `id` is dropped, the others keep their order; the rest of the record is unchanged. */
  function RemoveEducation(d: ResumeData, id: string): (r: ResumeData)
    ensures r.(education := d.education) == d
    ensures FiltersOut(r.education, d.education, Education.Key, id)
  {
    d.(education := RemoveWhere(d.education, Education.Key, id))
  }

  /** Adding an entry under an identifier not in use and removing that identifier gives back the record. */
  lemma AddThenRemoveEducation(d: ResumeData, id: string)
    requires forall i :: 0 <= i < |d.education| ==> d.education[i].id != id
    ensures RemoveEducation(AddEducation(d, id), id) == d
  {
    AddThenRemove(d.education, Education.Key, Education.Blank(id));
  }

  /** Editing a field other than the identifier and then removing the entry is the removal alone. */
  lemma UpdateThenRemoveEducation(d: ResumeData, id: string, f: Education.Field, v: string)
    requires f != Education.Id
    ensures RemoveEducation(UpdateEducation(d, id, f, v), id) == RemoveEducation(d, id)
  {
    forall x: Education.Education
      ensures Education.Key(Education.Set(x, f, v)) == Education.Key(x)
    {
      assert Education.Get(Education.Set(x, f, v), Education.Id) == Education.Get(x, Education.Id);
    }
    UpdateThenRemove(d.education, Education.Key, id, e => Education.Set(e, f, v));
  }

  // ---- projects ----

  /** `addProject`: a blank entry with identifier `id` goes at the end; the rest of the record is unchanged. */
  function AddProject(d: ResumeData, id: string): (r: ResumeData)
    ensures r.(projects := d.projects) == d
    ensures |r.projects| == |d.projects| + 1 && r.projects[..|d.projects|] == d.projects
    ensures r.projects[|d.projects|] == Project.Blank(id)
  {
    d.(projects := d.projects + [Project.Blank(id)])
  }

  /** `updateProject`: every entry with identifier `id` is replaced at its position by its edited copy; every other entry and the rest of the record are unchanged. */
  function UpdateProject(d: ResumeData, id: string, f: Project.Field, v: string): (r: ResumeData)
    ensures r.(projects := d.projects) == d
    ensures |r.projects| == |d.projects|
    ensures forall i :: 0 <= i < |d.projects| ==>
      r.projects[i] == if d.projects[i].id == id then Project.Set(d.projects[i], f, v) else d.projects[i]
  {
    d.(projects := UpdateWhere(d.projects, Project.Key, id, e => Project.Set(e, f, v)))
  }

  /** `removeProject`: every entry with identifier `id` is dropped, the others keep their order; the rest of the record is unchanged. */
  function RemoveProject(d: ResumeData, id: string): (r: ResumeData)
    ensures r.(projects := d.projects) == d
    ensures FiltersOut(r.projects, d.projects, Project.Key, id)
  {
    d.(projects := RemoveWhere(d.projects, Project.Key, id))
  }

  /** Adding an entry under an identifier not in use and removing that identifier gives back the record. */
  lemma AddThenRemoveProject(d: ResumeData, id: string)
    requires forall i :: 0 <= i < |d.projects| ==> d.projects[i].id != id
    ensures RemoveProject(AddProject(d, id), id) == d
  {
    AddThenRemove(d.projects, Project.Key, Project.Blank(id));
  }

  /** Editing a field other than the identifier and then removing the entry is the removal alone. */
  lemma UpdateThenRemoveProject(d: ResumeData, id: string, f: Project.Field, v: string)
    requires f != Project.Id
    ensures RemoveProject(UpdateProject(d, id, f, v), id) == RemoveProject(d, id)
  {
    forall x: Project.Project
      ensures Project.Key(Project.Set(x, f, v)) == Project.Key(x)
    {
      assert Project.Get(Project.Set(x, f, v), Project.Id) == Project.Get(x, Project.Id);
    }
    UpdateThenRemove(d.projects, Project.Key, id, e => Project.Set(e, f, v));
  }

  // ---- achievements ----

  /** `addAchievement`: a blank entry with identifier `id` goes at the end; the rest of the record is unchanged. */
  function AddAchievement(d: ResumeData, id: string): (r: ResumeData)
    ensures r.(achievements := d.achievements) == d
    ensures |r.achievements| == |d.achievements| + 1 && r.achievements[..|d.achievements|] == d.achievements
    ensures r.achievements[|d.achievements|] == Achievement.Blank(id)
  {
    d.(achievements := d.achievements + [Achievement.Blank(id)])
  }

  /** `updateAchievement`: every entry with identifier `id` is replaced at its position by its edited copy; every other entry and the rest of the record are unchanged. */
  function UpdateAchievement(d: ResumeData, id: string, f: Achievement.Field, v: string): (r: ResumeData)
    ensures r.(achievements := d.achievements) == d
    ensures |r.achievements| == |d.achievements|
    ensures forall i :: 0 <= i < |d.achievements| ==>
      r.achievements[i] == if d.achievements[i].id == id then Achievement.Set(d.achievements[i], f, v) else d.achievements[i]
  {
    d.(achievements := UpdateWhere(d.achievements, Achievement.Key, id, e => Achievement.Set(e, f, v)))
  }

  /** `removeAchievement`: every entry with identifier `id` is dropped, the others keep their order; the rest of the record is unchanged. */
  function RemoveAchievement(d: ResumeData, id: string): (r: ResumeData)
    ensures r.(achievements := d.achievements) == d
    ensures FiltersOut(r.achievements, d.achievements, Achievement.Key, id)
  {
    d.(achievements := RemoveWhere(d.achievements, Achievement.Key, id))
  }

  /** Adding an entry under an identifier not in use and removing that identifier gives back the record. */
  lemma AddThenRemoveAchievement(d: ResumeData, id: string)
    requires forall i :: 0 <= i < |d.achievements| ==> d.achievements[i].id != id
    ensures RemoveAchievement(AddAchievement(d, id), id) == d
  {
    AddThenRemove(d.achievements, Achievement.Key, Achievement.Blank(id));
  }

  /** Editing a field other than the identifier and then removing the entry is the removal alone. */
  lemma UpdateThenRemoveAchievement(d: ResumeData, id: string, f: Achievement.Field, v: string)
    requires f != Achievement.Id
    ensures RemoveAchievement(UpdateAchievement(d, id, f, v), id) == RemoveAchievement(d, id)
  {
    forall x: Achievement.Achievement
      ensures Achievement.Key(Achievement.Set(x, f, v)) == Achievement.Key(x)
    {
      assert Achievement.Get(Achievement.Set(x, f, v), Achievement.Id) == Achievement.Get(x, Achievement.Id);
    }
    UpdateThenRemove(d.achievements, Achievement.Key, id, e => Achievement.Set(e, f, v));
  }

  // ---- certifications ----

  /** `addCertification`: a blank entry with identifier `id` goes at the end; the rest of the record is unchanged. */
  function AddCertification(d: ResumeData, id: string): (r: ResumeData)
    ensures r.(certifications := d.certifications) == d
    ensures |r.certifications| == |d.certifications| + 1 && r.certifications[..|d.certifications|] == d.certifications
    ensures r.certifications[|d.certifications|] == Certification.Blank(id)
  {
    d.(certifications := d.certifications + [Certification.Blank(id)])
  }

  /** `updateCertification`: every entry with identifier `id` is replaced at its position by its edited copy; every other entry and the rest of the record are unchanged. */
  function UpdateCertification(d: ResumeData, id: string, f: Certification.Field, v: string): (r: ResumeData)
    ensures r.(certifications := d.certifications) == d
    ensures |r.certifications| == |d.certifications|
    ensures forall i :: 0 <= i < |d.certifications| ==>
      r.certifications[i] == if d.certifications[i].id == id then Certification.Set(d.certifications[i], f, v) else d.certifications[i]
  {
    d.(certifications := UpdateWhere(d.certifications, Certification.Key, id, e => Certification.Set(e, f, v)))
  }

  /** `removeCertification`: every entry with identifier `id` is dropped, the others keep their order; the rest of the record is unchanged. */
  function RemoveCertification(d: ResumeData, id: string): (r: ResumeData)
    ensures r.(certifications := d.certifications) == d
    ensures FiltersOut(r.certifications, d.certifications, Certification.Key, id)
  {
    d.(certifications := RemoveWhere(d.certifications, Certification.Key, id))
  }

  /** Adding an entry under an identifier not in use and removing that identifier gives back the record. */
  lemma AddThenRemoveCertification(d: ResumeData, id: string)
    requires forall i :: 0 <= i < |d.certifications| ==> d.certifications[i].id != id
    ensures RemoveCertification(AddCertification(d, id), id) == d
  {
    AddThenRemove(d.certifications, Certification.Key, Certification.Blank(id));
  }

  /** Editing a field other than the identifier and then removing the entry is the removal alone. */
  lemma UpdateThenRemoveCertification(d: ResumeData, id: string, f: Certification.Field, v: string)
    requires f != Certification.Id
    ensures RemoveCertification(UpdateCertification(d, id, f, v), id) == RemoveCertification(d, id)
  {
    forall x: Certification.Certification
      ensures Certification.Key(Certification.Set(x, f, v)) == Certification.Key(x)
    {
      assert Certification.Get(Certification.Set(x, f, v), Certification.Id) == Certification.Get(x, Certification.Id);
    }
    UpdateThenRemove(d.certifications, Certification.Key, id, e => Certification.Set(e, f, v));
  }

  // ---- identifiers ----

  /**
   * Each `addX` adds exactly one entry with the new identifier, so under an
   * identifier not in use the new entry is the only one that a later
   * `updateX` or `removeX` with that identifier reaches.
   */
  lemma AddedIdCount(d: ResumeData, id: string)
    ensures Count(AddExperience(d, id).experience, Experience.Key, id) == Count(d.experience, Experience.Key, id) + 1
    ensures Count(AddEducation(d, id).education, Education.Key, id) == Count(d.education, Education.Key, id) + 1
    ensures Count(AddProject(d, id).projects, Project.Key, id) == Count(d.projects, Project.Key, id) + 1
    ensures Count(AddAchievement(d, id).achievements, Achievement.Key, id) == Count(d.achievements, Achievement.Key, id) + 1
    ensures Count(AddCertification(d, id).certifications, Certification.Key, id) == Count(d.certifications, Certification.Key, id) + 1
  {
    AddCountsOnce(d.experience, Experience.Key, Experience.Blank(id));
    AddCountsOnce(d.education, Education.Key, Education.Blank(id));
    AddCountsOnce(d.projects, Project.Key, Project.Blank(id));
    AddCountsOnce(d.achievements, Achievement.Key, Achievement.Blank(id));
    AddCountsOnce(d.certifications, Certification.Key, Certification.Blank(id));
  }

  // ---- skills ----

  /**
   * `addSkill`: when the pending text is only white space nothing changes;
   * otherwise its trimmed form is appended to the skills and the pending
   * text is cleared.
   */
  function AddSkill(b: Builder): (r: Builder)
    ensures r.showSampleData == b.showSampleData
    ensures Text.AllWhitespace(b.newSkill) ==> r == b
    ensures !Text.AllWhitespace(b.newSkill) ==>
      && r.newSkill == ""
      && r.resume == b.resume.(skills := b.resume.skills + [Text.Trim(b.newSkill)])
  {
    var skill := Text.Trim(b.newSkill);
    if skill != [] then
      b.(resume := b.resume.(skills := b.resume.skills + [skill]), newSkill := "")
    else b
  }

  /** `removeSkill(index)`: the skill at `index` goes, the others keep their order; an index out of range changes nothing. */
  function RemoveSkill(d: ResumeData, index: int): (r: ResumeData)
    ensures r.(skills := d.skills) == d
    ensures r.skills == if 0 <= index < |d.skills| then d.skills[..index] + d.skills[index + 1..] else d.skills
  {
    d.(skills := DropIndex(d.skills, index))
  }

  /** Removing the skill that `addSkill` just appended gives back the record. */
  lemma AddThenRemoveSkill(b: Builder)
    requires !Text.AllWhitespace(b.newSkill)
    ensures RemoveSkill(AddSkill(b).resume, |b.resume.skills|) == b.resume
  {
    var s := b.resume.skills;
    assert (s + [Text.Trim(b.newSkill)])[..|s|] == s;
  }
}
