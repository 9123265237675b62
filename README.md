# Diagram editor: a Dafny model of its event handlers

This project models the logic of the `DiagramEditor` component of a small
React client for a diagram-generation service. The user supplies a "code"
string in one of four ways: typing it, uploading a plain-text file, pasting
from the clipboard, or loading a file from a GitHub URL. The component then
parses the string as JSON and posts it to the diagram service. It displays
the image URL the service returns, tagged with the diagram type selected at
request time.

The component's five pieces of state (`code`, `diagramType`,
`generatedDiagram`, `isGenerating`, `githubUrl`) are the fields of the class
`EditorComponent.DiagramEditor`. Each event handler is a method that updates
those fields step by step, as the component does.

- A handler takes what the outside world answered as parameters:
  - the chosen file, with `None` contents when the reader never delivers a load event;
  - the clipboard text, or `None` for a rejected read;
  - the result of fetching the raw URL;
  - whether `JSON.parse(code)` succeeds;
  - the diagram service's reply.
- A handler returns the alert it raised and the request it sent.
- Each method's postcondition equates its result with a pure function of the
  old state in `EditorSpec`. Those functions state the handlers' properties
  in their own postconditions (for generation, in the lemma `GenerateSpec`),
  and the lemmas beside them relate several calls.

Files:

- `wrappers.dfy`: `Option`.
- `js_text.dfy`: the JavaScript string operations the component uses. These
  are `trim` (with the ECMAScript whitespace set), `indexOf`, and `replace`
  with a string pattern, which changes only the first occurrence.
- `editor_spec.dfy`: the editor state, the net effect of each handler, the
  GitHub raw-URL rewrite, and the lemmas.
- `editor_component.dfy`: the class, and one client session that shows what
  a caller can conclude from the method contracts alone.

Between two events the component satisfies `EditorSpec.Valid`. That means no
generation is in flight and the selected type is one of the six options.
Every handler preserves it.

Three behaviours of the component are easy to misread. The model follows
the code in each:

- Only status 403 is special-cased. Any other status whose JSON body has a
  non-empty `url` is displayed, a 500 included. A non-403 status with a body
  that has no usable `url` raises the "could not generate" alert.
- The generating indicator is set before the JSON parse. So a malformed
  payload also sets and then clears it.
- `code` is also replaced by typing in the code area and by a successful
  GitHub load, not only by the file and clipboard handlers.

## Model

| member | source | states |
|---|---|---|
| `JsText.TrimStart` | src/components/DiagramEditor.tsx:61 | the result is a suffix of the input, everything dropped is whitespace, and the result does not start with whitespace |
| `JsText.TrimEnd` | src/components/DiagramEditor.tsx:61 | the result is a prefix of the input, everything dropped is whitespace, and the result does not end with whitespace |
| `JsText.TrimEmptyIffBlank` | src/components/DiagramEditor.tsx:61 | `code.trim()` is empty exactly when every character of `code` is JavaScript whitespace, so the guard refuses exactly the blank strings |
| `JsText.TrimIsEmpty` | src/components/DiagramEditor.tsx:61 | the guard `!code.trim()` holds exactly for blank code, so generation refuses exactly the strings made only of JavaScript whitespace |
| `JsText.IndexOfFrom` | src/components/DiagramEditor.tsx:50 | a found index holds an occurrence of the pattern and no earlier index from the start position does; `None` means no occurrence at or after the start |
| `JsText.IndexOf` | src/components/DiagramEditor.tsx:50 | the search finds something iff the pattern occurs somewhere, and what it finds is the leftmost occurrence |
| `JsText.ReplaceFirstSpec` | src/components/DiagramEditor.tsx:50 | `replace` with a string pattern returns the input unchanged when the pattern is absent, and otherwise splices the replacement over the leftmost occurrence only, keeping everything before and after it |
| `JsText.ReplaceFirstAfter` | src/components/DiagramEditor.tsx:50 | when no occurrence starts inside `pre`, replacing in `pre + pat + post` gives `pre + rep + post` |
| `EditorSpec.RawUrlUnchanged` | src/components/DiagramEditor.tsx:50 | a URL that contains neither "github.com" nor "/blob/" is fetched unchanged |
| `EditorSpec.RawHost` | src/components/DiagramEditor.tsx:50 | in "https://github.com..." the first replacement rewrites exactly the host to "raw.githubusercontent.com" |
| `EditorSpec.RawUrlOfBlobUrl` | src/components/DiagramEditor.tsx:50 | "https://github.com/owner/repo/blob/rest" becomes "https://raw.githubusercontent.com/owner/repo/rest": only the host and the "/blob/" segment change, for any slash-free owner not named "blob" and any slash-free repository, one named "blob" included |
| `EditorSpec.RawUrlOfOwnerNamedBlob` | src/components/DiagramEditor.tsx:50 | with an owner named "blob", the rewrite removes the owner segment and leaves the real "/blob/" in the path, because only the first "/blob/" is replaced |
| `EditorSpec.MessagesDistinct` | src/components/DiagramEditor.tsx:32-104 | the six alert texts the handlers show are pairwise different, so each failure kind is visible as such |
| `EditorSpec.UploadFile` | src/components/DiagramEditor.tsx:23-34 | a missing file or one whose type is not exactly "text/plain" raises the invalid-file alert and changes nothing; a plain-text file raises no alert, and its text replaces `code` once read; only `code` can change; no request is sent; the invariant is kept |
| `EditorSpec.PasteFromClipboard` | src/components/DiagramEditor.tsx:36-43 | a rejected clipboard read raises the clipboard alert and changes nothing; otherwise the clipboard text replaces `code`; only `code` can change; no request is sent; the invariant is kept |
| `EditorSpec.LoadFromGithub` | src/components/DiagramEditor.tsx:45-58 | with an empty URL nothing happens and nothing is fetched; otherwise a GET of the rewritten raw URL is sent; success sets `code` to the fetched text and empties the URL field; a rejected fetch raises the GitHub alert and changes nothing; only `code` and `githubUrl` can change; the invariant is kept |
| `EditorSpec.GenerateSpec` | src/components/DiagramEditor.tsx:60-109 | blank code raises the enter-code alert and changes nothing, with no request; otherwise the indicator ends cleared on every path; a POST to the service's endpoint is sent iff the code is non-blank and parses; a 403 ends with no alert and only the indicator cleared; a non-empty `url` becomes the displayed diagram with the type selected at call time, with no alert; no alert is raised iff the outcome is a 403 or a displayed diagram; every alert leaves the previous diagram in place; a parse failure, a rejected POST and an unreadable body raise the malformed-JSON alert, and a body without a non-empty `url` raises the could-not-generate alert; `code`, `diagramType` and `githubUrl` never change; the invariant is kept |
| `EditorSpec.LoadFromGithubThenAgain` | src/components/DiagramEditor.tsx:45-58 | after a successful load the URL field is empty, so a second load does nothing and fetches nothing |
| `EditorSpec.RefusedLeavesIdleStateAsItWas` | src/components/DiagramEditor.tsx:85-88 | on an idle editor a 403 leaves the state exactly as it was |
| `EditorSpec.GenerateAgainIsStable` | src/components/DiagramEditor.tsx:95-99 | repeating a successful generation with the same reply gives the same state, alert and request |
| `EditorComponent.DiagramEditor.constructor` | src/components/DiagramEditor.tsx:7-11 | the editor mounts with empty code, type "flowchart", no diagram, the indicator off and an empty URL field, which satisfies the invariant |
| `EditorComponent.DiagramEditor.EditCode` | src/components/DiagramEditor.tsx:228 | typing in the code area replaces `code` and nothing else |
| `EditorComponent.DiagramEditor.EditGithubUrl` | src/components/DiagramEditor.tsx:211 | typing in the URL field replaces `githubUrl` and nothing else |
| `EditorComponent.DiagramEditor.SelectDiagramType` | src/components/DiagramEditor.tsx:178-188 | choosing one of the six offered types replaces `diagramType` and nothing else, and keeps the invariant |
| `EditorComponent.DiagramEditor.HandleFileUpload` | src/components/DiagramEditor.tsx:23-34 | the field updates and the alert are those of `EditorSpec.UploadFile`, and only `code` is written |
| `EditorComponent.DiagramEditor.HandlePasteFromClipboard` | src/components/DiagramEditor.tsx:36-43 | the field updates and the alert are those of `EditorSpec.PasteFromClipboard`, and only `code` is written |
| `EditorComponent.DiagramEditor.LoadFromGithub` | src/components/DiagramEditor.tsx:45-58 | the field updates, alert and request are those of `EditorSpec.LoadFromGithub`, and only `code` and `githubUrl` are written |
| `EditorComponent.DiagramEditor.GenerateDiagram` | src/components/DiagramEditor.tsx:60-109 | setting the indicator, parsing, posting, the 403 early exit, the url check and clearing the indicator add up to `EditorSpec.Generate`; only `isGenerating` and `generatedDiagram` are written |
| `EditorComponent.DiagramEditor.ExportDiagram` | src/components/DiagramEditor.tsx:112-113 | an export starts iff a diagram is displayed, and nothing in the editor changes |

## Left out

- Concurrency: each handler runs to completion before the next event. The file reader's load event and the awaited clipboard read, fetch and POST are delivered inside the handler. A request that never settles, which would leave the indicator on, is not modelled.
- JSON parsing is an input `parses`. The POST's headers are not modelled: neither the token read from local storage and sent as `Authorization` without a "Bearer" prefix, nor the `{json: parsed}` body. The reply is reduced to its status and to whether its JSON body has a non-empty string `url`. A `url` that is truthy but not a string is not modelled. A body that `response.json()` rejects is `NotJson`, and so is a JSON `null` body, because reading `data.url` on it throws into the same catch.
- The fetch in the GitHub load only fails when it rejects. An HTTP error page still resolves, and its text becomes `code`, as in the component.
- The body of `exportDiagram`: the Blob, anchor, canvas and image-decode work, which also reads a `svg` field that generation never sets. Only its null guard is modelled.
- The disabled states of the generate and load buttons (src/components/DiagramEditor.tsx:217, 236) are rendering. The handlers' own guards are modelled.
- `console.log` calls, all other JSX rendering, the logout button, and the files outside the component: src/App.tsx, src/main.tsx, src/api/auth.ts, src/api/axios.ts and src/auth/AuthProvider copy.tsx. These are screen routing, bootstrapping, thin HTTP wrappers and commented-out code.
- Strings are sequences of `char`, which are Unicode scalar values rather than JavaScript's UTF-16 code units. Lone surrogates cannot be represented, and a character outside the Basic Multilingual Plane is one `char` rather than two. The whitespace set and every pattern used lie in the Basic Multilingual Plane.
- `JsText.IndexOfFrom` and `JsText.ReplaceFirst` model only what the raw-URL rewrite uses. `indexOf` clamping a start index beyond the end is not modelled, and neither is the expansion of `$` patterns in a `replace` replacement string.
