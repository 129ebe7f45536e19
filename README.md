# Job-search form: verified model of the submit handler

The form takes a free-text company name. On submit it rejects a name that is
blank once trimmed. Otherwise it derives three strings from the name as typed
(untrimmed) and stores them:

- an HR address, `hr@` + the lower-cased name with all white space deleted + `.com`;
- a LinkedIn company URL, `https://www.linkedin.com/company/` + a slug: the
  lower-cased name with each run of white space replaced by one `-`;
- a cold-email body, fixed text with the name spliced in at three places.

While the derivation runs, a `loading` flag is set. It is cleared afterwards,
whether the retrieval succeeded or failed.

The project has three modules:

- `Chars` (`chars.dfy`) is the character model. `IsWhitespace` is the
  ECMAScript white-space and line-terminator set, which `\s` and `trim` share.
  `ToLower` is ASCII lower-casing.
- `Text` (`text.dfy`) holds the string operations. `Lower` is `toLowerCase`.
  `TrimStart`, `TrimEnd` and `Trim` are `trim`. `ReplaceRuns(s, rep)` is
  `s.replace(/\s+/g, rep)` for a replacement without `$` patterns. `NonWs` is the white-space filter. `Pieces` and
  `Render` are a one-character-at-a-time reference tokenizer that gives the
  regular-expression replacement an independent meaning.
- `JobSearchForm` (`job_search_form.dfy`) holds the derivations `Slug`,
  `EmailLocal`, `HrEmail`, `LinkedinUrl` and `Template`. The cold-email text is
  a `Boilerplate` value with three splice points and an inverse `NameOf`. The
  `Form` class has the `companyName`, `loading` and `companyInfo` fields, and
  its `HandleSubmit` method models `handleSubmit`. The class also has a
  constant `respond`, the function that builds the response for a name. The
  constructor sets it to the mock derivation `Derive`, so after a successful
  submit `companyInfo` holds `Derive` of the name.

Two places where the code and the repository's design description differ. The
model follows the code in both.

- The description renders the e-mail from a directory record and says
  "Dear {addressee}". The code builds a mock response from the name alone. Its
  text starts "Dear Hiring Manager at {name}," and has extra placeholders
  (`[industry/field]`, `[company mission/values]`, `[X] years`).
- The description says the query is trimmed. The code trims only to decide
  whether the name is blank. All three strings are derived from the untrimmed
  name, so leading or trailing white space shows up as a `-` at that end of the
  slug.

## Model

| member | source | states |
|---|---|---|
| Chars.ToLower | src/components/JobSearchForm.tsx:35-36 | the result is never an upper-case ASCII letter; an upper-case letter maps to the same letter in lower case; every other character is unchanged; white space is preserved both ways |
| Text.Lower | src/components/JobSearchForm.tsx:35-36 | same length, lower-cased character by character; the result is lower-case; a lower-case string is a fixed point; white space appears in the result iff it appears in the input |
| Text.TrimStart | src/components/JobSearchForm.tsx:22 | the result is a suffix of the input; everything dropped is white space; the result is empty or starts with a non-white-space character |
| Text.TrimEnd | src/components/JobSearchForm.tsx:22 | the result is a prefix of the input; everything dropped is white space; the result is empty or ends with a non-white-space character |
| Text.Trim | src/components/JobSearchForm.tsx:22 | both ends of the result are non-white-space; the result is empty iff the input is all white space |
| Chars.IsWhitespace | src/components/JobSearchForm.tsx:22-36 | the white space that `\s` matches and `trim` strips: every such character is one UTF-16 code unit and not an ASCII letter; among ASCII characters it is exactly space, tab, line feed, vertical tab, form feed and carriage return |
| JobSearchForm.IsBlank | src/components/JobSearchForm.tsx:22 | the blank check `!companyName.trim()` holds exactly for the empty and white-space-only names |
| Text.ReplaceRuns | src/components/JobSearchForm.tsx:35-36 | every character of the result is a non-white-space character of the input or a character of the replacement |
| Text.ReplaceRunsNoWhitespace | src/components/JobSearchForm.tsx:35-36 | a replacement without white space leaves a result without white space |
| Text.ReplaceRunsFixesNoWhitespace | src/components/JobSearchForm.tsx:36 | a string without white space is left unchanged |
| Text.DeleteRunsIsNonWs | src/components/JobSearchForm.tsx:35 | replacing runs by the empty string deletes exactly the white-space characters and keeps the others in order |
| Text.ReplaceRunsTrailing | src/components/JobSearchForm.tsx:36 | a string ending in white space gives a result ending in the replacement |
| Text.PiecesShape | src/components/JobSearchForm.tsx:35-36 | the reference tokenizer never emits two gaps in a row, and its kept characters are exactly the non-white-space characters in order |
| Text.ReplaceRunsRendersPieces | src/components/JobSearchForm.tsx:35-36 | the regular-expression replacement equals the reference tokenization with each gap written as the replacement, so each maximal run becomes exactly one copy |
| JobSearchForm.Slug | src/components/JobSearchForm.tsx:36 | the slug is lower-case and free of white space |
| JobSearchForm.EmailLocal | src/components/JobSearchForm.tsx:35 | the local part is the lower-cased name with every white-space character deleted; it is lower-case and free of white space |
| JobSearchForm.NonWsOfLower | src/components/JobSearchForm.tsx:35 | deleting white space and lower-casing commute |
| JobSearchForm.HrEmail | src/components/JobSearchForm.tsx:35 | the address starts with `hr@` and ends with `.com`; between them is the lower-cased name without white space; the whole address is lower-case and free of white space |
| JobSearchForm.LinkedinUrl | src/components/JobSearchForm.tsx:36 | the URL is the company-page prefix followed by the lower-cased name with runs replaced by `-`; it is lower-case and free of white space |
| JobSearchForm.SlugIdempotent | src/components/JobSearchForm.tsx:36 | slugging a slug returns it unchanged |
| JobSearchForm.SlugAndEmailLocalShareRuns | src/components/JobSearchForm.tsx:35-36 | slug and e-mail local part render the same tokenization of the lower-cased name, a run becoming `-` in one and nothing in the other; both keep the lower-cased non-white-space characters in order; no two gaps are adjacent |
| JobSearchForm.SlugLeadingRun | src/components/JobSearchForm.tsx:36 | a name starting with white space (untrimmed) gets a slug of `-` followed by the slug of the name without that run |
| JobSearchForm.SlugTrailingRun | src/components/JobSearchForm.tsx:36 | a name ending with white space (untrimmed) gets a slug ending in `-` |
| JobSearchForm.Template | src/components/JobSearchForm.tsx:37-48 | the body is three name-lengths longer than the fixed text; it opens with `Dear Hiring Manager at `, then the name as typed, then a comma |
| JobSearchForm.FillOpens | src/components/JobSearchForm.tsx:37-38 | any filled boilerplate opens with its opening, then the name, then the first character of the text after the first splice |
| JobSearchForm.FillSlices | src/components/JobSearchForm.tsx:37-48 | in any boilerplate filled with a name, the four fixed parts and the three copies of the name follow each other in order, each at its computed offset |
| JobSearchForm.FillUnfilled | src/components/JobSearchForm.tsx:37-48 | cutting the three name-length windows out of a filled boilerplate leaves exactly its fixed text |
| JobSearchForm.TemplateSplices | src/components/JobSearchForm.tsx:37-48 | the cold e-mail holds the name verbatim (not lower-cased) at the three splice points; everything else is the same fixed text for every name |
| JobSearchForm.Boilerplate.NameOf | src/components/JobSearchForm.tsx:37-48 | a name read back out of a letter refills to exactly that letter |
| JobSearchForm.FillRoundTrip | src/components/JobSearchForm.tsx:37-48 | reading the name back out of a filled boilerplate gives the name |
| JobSearchForm.TemplateInjective | src/components/JobSearchForm.tsx:37-48 | different names give different cold e-mails |
| JobSearchForm.Derive | src/components/JobSearchForm.tsx:34-49 | the mock response: the address is `hr@` + the lower-cased name without white space + `.com`; the URL is the company-page prefix + the lower-cased name with runs replaced by `-`; the name can be read back out of the cold e-mail unchanged |
| JobSearchForm.Form.constructor | src/components/JobSearchForm.tsx:15-17 | initial state: empty name, not loading, no company information; the response source is the mock derivation `Derive` |
| JobSearchForm.Form.SetCompanyName | src/components/JobSearchForm.tsx:74 | the input handler replaces the name and changes nothing else |
| JobSearchForm.Form.Retrieve | src/components/JobSearchForm.tsx:32-61 | runs only while `loading` is set; on success it stores exactly the response for the current name and signals success; on failure it leaves the stored information as it was and signals failure; nothing else changes |
| JobSearchForm.Form.HandleSubmit | src/components/JobSearchForm.tsx:20-65 | the name is never changed; a blank name signals the missing-name error and leaves `loading` and `companyInfo` exactly as they were; otherwise `loading` is false afterwards, and `companyInfo` becomes the response for the name on success or stays as it was on failure |

## Left out

- Rendering (src/components/JobSearchForm.tsx:67-127): the input, the disabled button and the cards are presentation. The input's change handler is kept as `SetCompanyName`.
- Toast notifications: only which one is raised is modelled, as the `Notice` returned by `HandleSubmit`.
- The `async` wrapper and `e.preventDefault()` are event machinery. React `useState` is modelled as plain fields that each update sets at once. React batches the three updates of one handler call, and that batching is not modelled.
- Form.Retrieve: the `fault` parameter stands for the retrieval that the mock stands in for failing before anything is stored, which leads to the `catch` branch. A throw from the success toast after `setCompanyInfo` (which would leave the new triple stored and raise the failure toast) is not modelled, because the toast hook is not part of this model.
- Text.ReplaceRuns: copies the replacement as given. JavaScript would expand `$&`, `$$`, `` $` `` and `$'` patterns in it. The two replacements the form uses, `''` and `'-'`, contain none.
- Chars.ToLower: lower-cases ASCII letters only. Unicode case mapping, including mappings that change a string's length, is not modelled.
- Chars.IsWhitespace: works on Unicode scalar values. UTF-16 code units, as JavaScript strings hold them, are not modelled.
- The contact-directory lookup (found / not found / lookup failure) that the repository's description mentions has no code in the repository. Only the mock derivation exists, so only that is modelled.
- src/pages/Index.tsx only mounts the form and is not part of this model.
