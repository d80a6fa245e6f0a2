# Resume builder: record updates and PDF pagination

This project models the two parts of the resume builder's single page component (`app/page.tsx`) that hold real logic. It proves properties of both in Dafny.

1. **Record updates.** The component keeps one `ResumeData` record. It holds a contact block, a summary, a list of skills and five collections of entries: experience, education, projects, achievements and certifications. Each entry has a string `id`. Every operation builds a new record from the old one, using object spread, `.map` and `.filter`. Here each operation is a function from the old record to the new one:
   - `updateContact` replaces one contact field.
   - `addX` appends a blank entry.
   - `updateX` applies `{ ...entry, [field]: value }` to every entry whose id matches.
   - `removeX` filters out every entry whose id matches.
   - `addSkill` appends the trimmed pending skill text, but only when that text is not blank.
   - `removeSkill` drops the skill at one index.
   - `clearData` and `loadSampleData` replace the whole record.

   All five collections share one generic implementation (module `Collections`). Each entry type gets its own field enumeration with `Get`/`Set` (modules `Contact`, `Experience`, `Education`, `Project`, `Achievement`, `Certification`).
2. **PDF pagination.** `exportToPDF` rasterises the preview at scale 2. It scales the canvas to the page width, and when the content is taller than one page it cuts it into bands of at most one page height, drawing each band on its own page. `Paginate` and its loop `SliceBands` are methods that return the bands drawn and the number of `addPage` calls. Heights are exact reals. `FileName` gives the name of the saved file.

Files:
- `collections.dfy`: the keyed `.map`/`.filter` operations, index deletion and the lemmas relating them.
- `sections.dfy`: the contact block and the five entry types.
- `text.dfy`: ECMAScript `String.prototype.trim`.
- `resume.dfy`: the record, the bundled sample record, and every record operation.
- `pdf_export.dfy`: pagination, the file name, and the A4 export.

## Model

| member | source | states |
|---|---|---|
| `Collections.UpdateWhere` | app/page.tsx:452-457 | the `.map` by id keeps length and order; each position holding the id becomes the updated entry, and every other position is unchanged |
| `Collections.RemoveWhere` | app/page.tsx:459-464 | the `.filter` by id leaves no entry with that id; the length drops by the number of matching entries (`Count`); the survivors form a subsequence of the input in the same order; these three facts determine the result |
| `Collections.AddThenRemove` | app/page.tsx:436-464 | appending an entry whose id is not in use and then removing that id gives back the original collection |
| `Collections.AddCountsOnce` | app/page.tsx:436-450 | appending an entry raises the number of entries with its id by exactly one |
| `Collections.RemoveIdempotent` | app/page.tsx:459-464 | removing an id a second time changes nothing |
| `Collections.UpdateThenRemove` | app/page.tsx:452-464 | an update that keeps ids, followed by removing the same id, equals the removal alone: edits to a deleted entry leave no trace |
| `Collections.DropIndex` | app/page.tsx:506-511 | `.filter((_, i) => i !== index)` equals `s[..index] + s[index+1..]` for an index in range, and leaves `s` unchanged otherwise (negative or too large) |
| `Contact.Set` | app/page.tsx:429-434 | `{ ...contact, [field]: value }` reads back `value` at `field` and the old value at every other field |
| `Contact.Blank` | app/page.tsx:409-417 | every contact field of the cleared record is empty |
| `Experience.Set` | app/page.tsx:452-457 | a text edit sets exactly that text field; a `current` edit sets only `current`; every other field keeps its value |
| `Experience.Blank` | app/page.tsx:437-445 | the new experience entry has the given id, every text field empty, and `current` false |
| `Education.Set` | app/page.tsx:482-487 | field `f` becomes `v`; every other field, the id included, is unchanged |
| `Education.Blank` | app/page.tsx:467-475 | the new education entry has the given id and every other field empty |
| `Project.Set` | app/page.tsx:528-533 | field `f` becomes `v`; every other field is unchanged |
| `Project.Blank` | app/page.tsx:514-521 | the new project has the given id and every other field empty |
| `Achievement.Set` | app/page.tsx:556-563 | field `f` becomes `v`; every other field is unchanged |
| `Achievement.Blank` | app/page.tsx:543-549 | the new achievement has the given id and every other field empty |
| `Certification.Set` | app/page.tsx:588-593 | field `f` becomes `v`; every other field is unchanged |
| `Certification.Blank` | app/page.tsx:573-581 | the new certification has the given id and every other field empty |
| `Text.Trim` | app/page.tsx:497-500 | `trim()` is empty exactly when the text is all ECMAScript white space; otherwise it starts and ends with a non-space character; it is a contiguous piece of the text with only white space cut from either end |
| `Text.TrimIdempotent` | app/page.tsx:497-500 | trimming a trimmed text changes nothing |
| `Resume.LoadSampleData` | app/page.tsx:402-405 | the record becomes the bundled sample and the sample flag is set; the pending skill text is kept |
| `Resume.ClearData` | app/page.tsx:407-427 | every contact field and the summary are empty, every list is empty, the sample flag is cleared and the pending skill text is kept |
| `Resume.UpdateContact` | app/page.tsx:429-434 | exactly `contact.field` becomes `value`; every other contact field, the summary, the skills and all five collections are unchanged |
| `Resume.ContactLastWriteWins` | app/page.tsx:429-434 | writing one contact field twice leaves the last value |
| `Resume.ContactUpdatesCommute` | app/page.tsx:429-434 | writes to two different contact fields can be done in either order |
| `Resume.InitialIsSample` | app/page.tsx:368-375 | at mount the record is the bundled sample, the pending skill text is empty and the sample flag is set; clearing and then loading the sample returns to exactly that state |
| `Resume.AddExperience` | app/page.tsx:436-450 | one blank entry with the given id goes at the end; the old entries form the prefix; nothing else in the record changes |
| `Resume.UpdateExperience` | app/page.tsx:452-457 | the length is kept; each entry with the id becomes `Experience.Set(entry, edit)` at its own position; entries with other ids and the rest of the record are unchanged |
| `Resume.RemoveExperience` | app/page.tsx:459-464 | the experience list is filtered by id (no match left, length down by the number of matches, order kept); nothing else changes |
| `Resume.AddThenRemoveExperience` | app/page.tsx:436-464 | adding under an id no entry has and then removing that id gives back the record |
| `Resume.UpdateThenRemoveExperience` | app/page.tsx:452-464 | editing any field but the id of a experience entry and then removing that id gives the same record as the removal alone |
| `Resume.AddEducation` | app/page.tsx:466-480 | one blank entry with the given id goes at the end; the old entries form the prefix; nothing else changes |
| `Resume.UpdateEducation` | app/page.tsx:482-487 | the length is kept; each entry with the id becomes `Education.Set(entry, f, v)`; other entries and the rest of the record are unchanged |
| `Resume.RemoveEducation` | app/page.tsx:489-494 | the education list is filtered by id; nothing else changes |
| `Resume.AddThenRemoveEducation` | app/page.tsx:466-494 | adding under an unused id and removing it gives back the record |
| `Resume.UpdateThenRemoveEducation` | app/page.tsx:482-494 | editing any field but the id of a education entry and then removing that id gives the same record as the removal alone |
| `Resume.AddProject` | app/page.tsx:513-526 | one blank project with the given id goes at the end; nothing else changes |
| `Resume.UpdateProject` | app/page.tsx:528-533 | the length is kept; each project with the id becomes `Project.Set(entry, f, v)`; the rest is unchanged |
| `Resume.RemoveProject` | app/page.tsx:535-540 | the project list is filtered by id; nothing else changes |
| `Resume.AddThenRemoveProject` | app/page.tsx:513-540 | adding under an unused id and removing it gives back the record |
| `Resume.UpdateThenRemoveProject` | app/page.tsx:528-540 | editing any field but the id of a project and then removing that id gives the same record as the removal alone |
| `Resume.AddAchievement` | app/page.tsx:542-554 | one blank achievement with the given id goes at the end; nothing else changes |
| `Resume.UpdateAchievement` | app/page.tsx:556-563 | the length is kept; each achievement with the id becomes `Achievement.Set(entry, f, v)`; the rest is unchanged |
| `Resume.RemoveAchievement` | app/page.tsx:565-570 | the achievement list is filtered by id; nothing else changes |
| `Resume.AddThenRemoveAchievement` | app/page.tsx:542-570 | adding under an unused id and removing it gives back the record |
| `Resume.UpdateThenRemoveAchievement` | app/page.tsx:556-570 | editing any field but the id of a achievement and then removing that id gives the same record as the removal alone |
| `Resume.AddCertification` | app/page.tsx:572-586 | one blank certification with the given id goes at the end; nothing else changes |
| `Resume.UpdateCertification` | app/page.tsx:588-593 | the length is kept; each certification with the id becomes `Certification.Set(entry, f, v)`; the rest is unchanged |
| `Resume.RemoveCertification` | app/page.tsx:595-600 | the certification list is filtered by id; nothing else changes |
| `Resume.AddThenRemoveCertification` | app/page.tsx:572-600 | adding under an unused id and removing it gives back the record |
| `Resume.UpdateThenRemoveCertification` | app/page.tsx:588-600 | editing any field but the id of a certification and then removing that id gives the same record as the removal alone |
| `Resume.AddSkill` | app/page.tsx:496-504 | pending text that is all white space changes nothing; otherwise `skills` becomes `skills + [trim(newSkill)]`, the pending text becomes empty and nothing else changes |
| `Resume.RemoveSkill` | app/page.tsx:506-511 | exactly the skill at `index` is removed and the rest keep their order; an index outside `[0, |skills|)` leaves the skills unchanged; nothing else changes |
| `Resume.AddThenRemoveSkill` | app/page.tsx:496-511 | removing the skill `addSkill` just appended gives back the record |
| `Resume.AddedIdCount` | app/page.tsx:436-600 | each of the five `addX` raises the number of entries carrying the new id by exactly one, so under an unused id the new entry is the only one that a later `updateX` or `removeX` reaches |
| `PdfExport.SliceBands` | app/page.tsx:668-706 | the multi-page loop ends after `m` turns, where `m` is the least count of page heights that reaches the scaled height. Its bands are `LoopBands(m)`: turn `k` draws `LoopBand(k)`, the band at cursor `k * pdfHeight` (677-682). `addPage` runs `m - 1` times. The page heights sum to the scaled height, and the canvas rows sum to the scaled height mapped back |
| `PdfExport.LoopBandsCover` | app/page.tsx:672-705 | while the cursor has not passed the scaled height, the bands drawn so far cover exactly the content above the cursor, in page heights and in canvas rows |
| `PdfExport.LoopCount` | app/page.tsx:672-705 | a loop that stops after `m` turns, with `m - 1` page heights short of the scaled height and `m` reaching it, ran `ceil(scaledHeight / pdfHeight)` times |
| `PdfExport.MultiPageTiles` | app/page.tsx:672-705 | the loop's band count is `ceil(scaledHeight / pdfHeight)`; band `k` starts at row `k*pdfHeight/ratio*2`; each band is positive and at most one page tall; each band starts where the previous one ends; the last band ends at the bottom of the content |
| `PdfExport.Paginate` | app/page.tsx:654-707 | with `Ratio` and `ScaledHeight` computing the width ratio and the scaled height as at 660-661: content no taller than a page gives one band (the whole canvas) and no `addPage`; otherwise the bands are as in the loop. In both cases `addPage` runs one time fewer than the band count, the count is `ceil(scaledHeight / pdfHeight)` for non-empty content, the bands tile the canvas rows `[0, imgHeight)` with no gap or overlap, the page heights sum to `scaledHeight`, and the canvas rows sum to `imgHeight` |
| `PdfExport.FileName` | app/page.tsx:710-711 | the name always ends in `.pdf`; the part before it is the contact name when that is non-empty (used verbatim), and `Amit Gupta` otherwise |
| `PdfExport.ClearedRecordFileName` | app/page.tsx:710-711 | after `clearData` the file is named `Amit Gupta.pdf` |
| `PdfExport.InitialFileName` | app/page.tsx:710-711 | the sample record shown at mount exports as `Amit Gupta.pdf` |
| `PdfExport.ExportToPdf` | app/page.tsx:652-711 | on an A4 page (210 by 297 mm) with a 1588-pixel-wide canvas (794 CSS pixels at scale 2), the file name is `FileName(fullName)` and the bands tile the canvas; no page is added exactly when the canvas is at most 1588·297/210 pixels tall; no band is taller than 297 mm |

## Left out

- JSX rendering, tabs, sheets, selects and the responsive layout (app/page.tsx:723-2034) are left out: they are presentation only.
- The window resize handler (app/page.tsx:382-400) is left out: it only wires `window.innerWidth` to UI state.
- The style lookup tables `colorPalettes`, `fontFamilies`, `fontSizes` and `previewSizes` are left out: they are constant data with no behaviour.
- Entry identifiers come from `Date.now().toString()` in the source. Here they are a parameter of each `addX`, because they depend on the wall clock. Two entries added in the same millisecond could share an id, which the source does not guard against. The round-trip lemmas require an unused id.
- DOM cloning, the 500 ms settle delay, `html2canvas`, `canvas.toDataURL`, image decoding, `drawImage` and the jsPDF calls are not modelled. They are foreign library and DOM calls. A drawn image is recorded as a `Band`, the `addPage` calls are counted, and the canvas height is a parameter of `ExportToPdf`.
- In the source, `getContext("2d")` may return null, and then that page gets no image. The model assumes it always returns a context.
- Lengths are exact reals. The IEEE-754 rounding of the JavaScript arithmetic is not modelled. Neither is the canvas truncating a fractional `sourceHeight` to whole pixels, or the cursor drifting through repeated floating-point addition.
- `PdfExport.Paginate`: the band count equals `ceil(scaledHeight / pdfHeight)` only when the content height is positive. An empty canvas still gets its one page, while the ceiling of 0 is 0. The cloned preview gets 40 px of padding on every side (app/page.tsx:628), so in practice the canvas is never empty.
- The `isExporting` flag, the `try`/`catch`/`finally` with its alert, and the early return when the preview element is missing are left out. They are UI and async plumbing.
- The optional fields (`gpa?`, `link?`, `github?`, `organization?`, `expiryDate?`, `credentialId?`) are plain strings. The model does not tell `undefined` apart from `""`. Every blank entry and every sample entry sets them.
- A field/value pair that does not type-check, such as a string for `current`, cannot be expressed in the model. TypeScript's `string | boolean` lets the source pass one. `Experience.Edit` pairs each field with a value of its own type.
- `Text.Trim` works on Unicode scalar values. The source's strings are UTF-16, so lone surrogate halves are not modelled. No surrogate is white space, so trimming gives the same result.
- The date formatting in the preview (`toLocaleDateString`) is left out: it is a locale library call.
