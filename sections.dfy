/**
 * The parts of a resume record. Each module holds one record type, an
 * enumeration of its string fields (the `keyof` of the record), a reader
 * `Get` and the computed-key update `{ ...x, [field]: value }` as `Set`.
 * The optional fields (`gpa?`, `link?`, ...) are plain strings: every blank
 * entry and every entry of the bundled sample sets them.
 */

module Contact {

  datatype ContactInfo = ContactInfo(
    fullName: string, email: string, phone: string, location: string,
    website: string, linkedin: string, github: string)

  datatype Field = FullName | Email | Phone | Location | Website | Linkedin | Github

  function Get(c: ContactInfo, f: Field): string
  {
    match f
    case FullName => c.fullName
    case Email => c.email
    case Phone => c.phone
    case Location => c.location
    case Website => c.website
    case Linkedin => c.linkedin
    case Github => c.github
  }

  /** `{ ...c, [f]: v }`: field `f` becomes `v`, every other field keeps its value. */
  function Set(c: ContactInfo, f: Field, v: string): (r: ContactInfo)
    ensures forall g :: Get(r, g) == if g == f then v else Get(c, g)
  {
    match f
    case FullName => c.(fullName := v)
    case Email => c.(email := v)
    case Phone => c.(phone := v)
    case Location => c.(location := v)
    case Website => c.(website := v)
    case Linkedin => c.(linkedin := v)
    case Github => c.(github := v)
  }

  /** The contact block of a cleared record. */
  function Blank(): (r: ContactInfo)
    ensures forall g :: Get(r, g) == ""
  {
    ContactInfo("", "", "", "", "", "", "")
  }
}

module Experience {

  datatype WorkExperience = WorkExperience(
    id: string, company: string, position: string, startDate: string,
    endDate: string, current: bool, description: string)

  /** The string fields; `current` is the one boolean field. */
  datatype Field = Id | Company | Position | StartDate | EndDate | Description

  /** `updateExperience` takes `value: string | boolean`: a string for a text field, a boolean for `current`. */
  datatype Edit = Text(field: Field, text: string) | Current(checked: bool)

  function Key(e: WorkExperience): string { e.id }

  function Get(e: WorkExperience, f: Field): string
  {
    match f
    case Id => e.id
    case Company => e.company
    case Position => e.position
    case StartDate => e.startDate
    case EndDate => e.endDate
    case Description => e.description
  }

  /** `{ ...e, [field]: value }`: the edited field takes the new value, every other field keeps its own. */
  function Set(e: WorkExperience, edit: Edit): (r: WorkExperience)
    ensures forall g :: Get(r, g) == if edit.Text? && edit.field == g then edit.text else Get(e, g)
    ensures r.current == if edit.Current? then edit.checked else e.current
  {
    match edit
    case Current(b) => e.(current := b)
    case Text(f, v) =>
      match f
      case Id => e.(id := v)
      case Company => e.(company := v)
      case Position => e.(position := v)
      case StartDate => e.(startDate := v)
      case EndDate => e.(endDate := v)
      case Description => e.(description := v)
  }

  /** The entry `addExperience` appends: the given identifier, every text field empty, not current. */
  function Blank(id: string): (r: WorkExperience)
    ensures forall g :: Get(r, g) == if g == Id then id else ""
    ensures !r.current
  {
    WorkExperience(id, "", "", "", "", false, "")
  }
}

module Education {

  datatype Education = Education(
    id: string, institution: string, degree: string, field: string,
    startDate: string, endDate: string, gpa: string)

  datatype Field = Id | Institution | Degree | FieldOfStudy | StartDate | EndDate | Gpa

  function Key(e: Education): string { e.id }

  function Get(e: Education, f: Field): string
  {
    match f
    case Id => e.id
    case Institution => e.institution
    case Degree => e.degree
    case FieldOfStudy => e.field
    case StartDate => e.startDate
    case EndDate => e.endDate
    case Gpa => e.gpa
  }

  /** `{ ...e, [f]: v }`: field `f` becomes `v`, every other field keeps its value. */
  function Set(e: Education, f: Field, v: string): (r: Education)
    ensures forall g :: Get(r, g) == if g == f then v else Get(e, g)
  {
    match f
    case Id => e.(id := v)
    case Institution => e.(institution := v)
    case Degree => e.(degree := v)
    case FieldOfStudy => e.(field := v)
    case StartDate => e.(startDate := v)
    case EndDate => e.(endDate := v)
    case Gpa => e.(gpa := v)
  }

  /** The entry `addEducation` appends: the given identifier, every other field empty. */
  function Blank(id: string): (r: Education)
    ensures forall g :: Get(r, g) == if g == Id then id else ""
  {
    Education(id, "", "", "", "", "", "")
  }
}

module Project {

  datatype Project = Project(
    id: string, name: string, description: string, technologies: string,
    link: string, github: string)

  datatype Field = Id | Name | Description | Technologies | Link | Github

  function Key(p: Project): string { p.id }

  function Get(p: Project, f: Field): string
  {
    match f
    case Id => p.id
    case Name => p.name
    case Description => p.description
    case Technologies => p.technologies
    case Link => p.link
    case Github => p.github
  }

  /** `{ ...p, [f]: v }`: field `f` becomes `v`, every other field keeps its value. */
  function Set(p: Project, f: Field, v: string): (r: Project)
    ensures forall g :: Get(r, g) == if g == f then v else Get(p, g)
  {
    match f
    case Id => p.(id := v)
    case Name => p.(name := v)
    case Description => p.(description := v)
    case Technologies => p.(technologies := v)
    case Link => p.(link := v)
    case Github => p.(github := v)
  }

  /** The entry `addProject` appends: the given identifier, every other field empty. */
  function Blank(id: string): (r: Project)
    ensures forall g :: Get(r, g) == if g == Id then id else ""
  {
    Project(id, "", "", "", "", "")
  }
}

module Achievement {

  datatype Achievement = Achievement(
    id: string, title: string, description: string, date: string,
    organization: string)

  datatype Field = Id | Title | Description | Date | Organization

  function Key(a: Achievement): string { a.id }

  function Get(a: Achievement, f: Field): string
  {
    match f
    case Id => a.id
    case Title => a.title
    case Description => a.description
    case Date => a.date
    case Organization => a.organization
  }

  /** `{ ...a, [f]: v }`: field `f` becomes `v`, every other field keeps its value. */
  function Set(a: Achievement, f: Field, v: string): (r: Achievement)
    ensures forall g :: Get(r, g) == if g == f then v else Get(a, g)
  {
    match f
    case Id => a.(id := v)
    case Title => a.(title := v)
    case Description => a.(description := v)
    case Date => a.(date := v)
    case Organization => a.(organization := v)
  }

  /** The entry `addAchievement` appends: the given identifier, every other field empty. */
  function Blank(id: string): (r: Achievement)
    ensures forall g :: Get(r, g) == if g == Id then id else ""
  {
    Achievement(id, "", "", "", "")
  }
}

module Certification {

  datatype Certification = Certification(
    id: string, name: string, issuer: string, date: string,
    expiryDate: string, credentialId: string, link: string)

  datatype Field = Id | Name | Issuer | Date | ExpiryDate | CredentialId | Link

  function Key(c: Certification): string { c.id }

  function Get(c: Certification, f: Field): string
  {
    match f
    case Id => c.id
    case Name => c.name
    case Issuer => c.issuer
    case Date => c.date
    case ExpiryDate => c.expiryDate
    case CredentialId => c.credentialId
    case Link => c.link
  }

  /** `{ ...c, [f]: v }`: field `f` becomes `v`, every other field keeps its value. */
  function Set(c: Certification, f: Field, v: string): (r: Certification)
    ensures forall g :: Get(r, g) == if g == f then v else Get(c, g)
  {
    match f
    case Id => c.(id := v)
    case Name => c.(name := v)
    case Issuer => c.(issuer := v)
    case Date => c.(date := v)
    case ExpiryDate => c.(expiryDate := v)
    case CredentialId => c.(credentialId := v)
    case Link => c.(link := v)
  }

  /** The entry `addCertification` appends: the given identifier, every other field empty. */
  function Blank(id: string): (r: Certification)
    ensures forall g :: Get(r, g) == if g == Id then id else ""
  {
    Certification(id, "", "", "", "", "", "")
  }
}
