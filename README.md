# AI Baby Generator — a Dafny model of its core

`baby.py` is a Streamlit page that asks a hosted Stable Diffusion XL model
for portraits of an imagined child at four life phases (Bebê, Criança,
Adolescente, Adulto). The page is mostly widgets. Four pieces of logic in the
script are modelled and proved here:

- **The prompt composer.**
  - It takes the phase description from `AGE_PROMPTS` and the skin-tone descriptor from `skin_tone_options`.
  - It applies the gendered `str.replace` chain of the single-image path or of the all-phases path.
  - It fills `{age_desc}` and `{skin_tone}` in `BASE_PROMPT_TEMPLATE` with `str.format`, and pairs the prompt with `NEGATIVE_PROMPT`.
  - Modules `PyStr` (Python's `str.replace` and `str.format`), `Prompt` and `PromptFacts`.
- **`query_api`.** No request is sent without a non-empty token. The body comes back only on status 200. Module `Api`.
- **`create_image_grid`.** A `Canvas` class keeps the sequence of pastes made onto a 1024 × 1024 image. Which picture shows at each pixel follows from that sequence. Module `Grid`.
- **The all-phases handler.** It asks for the four phases in order and keeps each delivered image. It stops at the first failure and builds the grid only from four images. The server is an oracle: `replies[i]` is its answer to phase i. Module `Orchestrator`, which also holds the single-image handler.

Files:

| file | contents |
|---|---|
| `wrappers.dfy` | `Option` and `byte` |
| `pystr.dfy` | `str.replace`, `str.split`/`join` as an independent formulation of replace, `str.format` with keyword fields |
| `prompt.dfy` | the constants, both rewrite chains, the template fill, the payloads |
| `prompt_facts.dfy` | what the chains do to each phase description |
| `api.dfy` | `query_api` |
| `grid.dfy` | `Canvas`, `create_image_grid` |
| `orchestrator.dfy` | gender resolution, both button handlers, the phase loop |

## Model

| member | source | states |
|---|---|---|
| PyStr.ReplaceIsJoinOfSplit | baby.py:99 | `s.replace(pat, rep)` equals `rep.join(s.split(pat))`, the split/join formulation of replacing every non-overlapping occurrence |
| PyStr.SplitJoinRoundTrip | baby.py:99 | joining the pieces of a split with the same separator gives back the text |
| PyStr.ReplaceBySelf | baby.py:130 | replacing a pattern by itself leaves the text unchanged |
| PyStr.ReplaceLength | baby.py:130 | the result grows by `len(rep) - len(pat)` for each of the `count(pat)` non-overlapping occurrences |
| PyStr.SplitFromLength | baby.py:99 | a split has one more piece than there are occurrences |
| PyStr.ReplaceLeftmost | baby.py:127 | the leftmost occurrence is replaced, and scanning resumes after it on the original text, never on the replacement |
| PyStr.ReplaceAtStart | baby.py:127 | an occurrence at the start is replaced, and the rest is processed on its own |
| PyStr.ReplaceAbsent | baby.py:127-129 | text that lacks a character of the pattern is unchanged |
| PyStr.ReplaceSeparated | baby.py:127-129 | a character that the pattern lacks splits the text into parts that are rewritten independently |
| PyStr.ReplaceCleanPrefix | baby.py:127-129 | a prefix that lacks the pattern's first character passes through unchanged |
| PyStr.IndexOf | baby.py:100 | the result is the position of the first occurrence of the character, or none when it is absent |
| PyStr.FormatPlain | baby.py:100 | text without braces is copied to the output verbatim |
| PyStr.FormatField | baby.py:100 | `{name}` is replaced by the keyword's value; an unknown name is an error |
| PyStr.FormatTextField | baby.py:100 | plain text followed by a known field gives the text followed by the value |
| PyStr.FormatTwoFields | baby.py:132 | a template with two known fields gives its text with both values substituted verbatim |
| Prompt.TemplateFill | baby.py:17 | `BASE_PROMPT_TEMPLATE.format(age_desc=a, skin_tone=s)` succeeds and is the template's head, `a`, `", "`, `s` and the tail |
| Prompt.PhasePayloadFills | baby.py:132-133 | the all-phases payload is the template filled verbatim with the rewritten phase description and the skin-tone descriptor, next to `NEGATIVE_PROMPT` |
| Prompt.SinglePayloadFills | baby.py:100-102 | the single-image payload is built from the same template and negative prompt |
| PromptFacts.RewritesKeep | baby.py:125-130 | text lacking a letter of each pattern passes through both chains unchanged |
| PromptFacts.RewritesSeparate | baby.py:125-130 | both chains rewrite the comma-separated phrases of a description independently |
| PromptFacts.RewritesPhrase | baby.py:125-130 | a trailing phrase that no pattern can match passes through both chains |
| PromptFacts.PhaseRewriteSteps | baby.py:126-130 | the `gender.lower() == 'menino'` test picks boy/male teenager/man or girl/female teenager/woman, and the 'newborn baby' step follows |
| PromptFacts.BebeDesc | baby.py:130 | Bebê becomes "… cute newborn baby <gender lowercased>, 1 month old, …" in both paths; the suffix appears once |
| PromptFacts.CriancaDesc | baby.py:127 | Criança: 'child' becomes boy/girl in the all-phases path and '<gender> child' in the single-image path |
| PromptFacts.AdolescenteDesc | baby.py:127 | Adolescente: 'teenager' becomes male/female teenager in the all-phases path and '<gender> teenager' in the single-image path |
| PromptFacts.AdultoDesc | baby.py:127 | Adulto: 'young adult' becomes 'young man'/'young woman'; the single-image chain would leave the description untouched |
| PromptFacts.CriancaMeninoPhase | baby.py:127 | Criança with Menino in the all-phases path is exactly "cute happy boy, 6 years old, smiling, headshot portrait" |
| PromptFacts.CriancaMeninoSingle | baby.py:99 | Criança with Menino in the single-image path is exactly "cute happy menino child, 6 years old, smiling, headshot portrait" |
| PromptFacts.NewbornSuffixOnce | baby.py:130 | the 'newborn baby' rewrite agrees with the split/join formulation, the split round-trips, and the text grows by one suffix per original occurrence |
| Api.QueryApi | baby.py:31-51 | with a missing or empty token nothing is sent and `None` returned; otherwise one request with the Bearer header and the payload goes out, and the body comes back exactly when the status is 200 |
| Api.DeliveredExactly | baby.py:134-136 | `if image_bytes:` holds exactly when there is a token, the status is 200 and the body is not empty |
| Grid.Top | baby.py:60-63 | the layer seen at a pixel is the last paste covering it; no later paste covers it; with no cover the pixel is background |
| Grid.Canvas.constructor | baby.py:57 | a new canvas has the requested size and no pastes |
| Grid.Canvas.Paste | baby.py:60 | a paste appends one layer and keeps the earlier ones |
| Grid.CreateImageGrid | baby.py:54-65 | the grid is 1024 × 1024 and holds the four pastes in order; every pixel shows the picture of its quadrant at its offset inside the quadrant |
| Grid.Quadrant | baby.py:60-63 | every canvas pixel lies in cell `x div 512 + 2 (y div 512)`, inside that cell's bounds |
| Grid.GridCells | baby.py:60-63 | paste i carries picture i at ((i mod 2)·512, (i div 2)·512) |
| Grid.CellsDisjoint | baby.py:60-63 | no pixel lies in two cells |
| Grid.CellsCover | baby.py:57-63 | every pixel of the canvas lies in a cell |
| Grid.GridShows | baby.py:54-65 | every pixel shows the picture of its cell; no background remains |
| Orchestrator.ResolveGenderAsWritten | baby.py:115 | as written, 'Aleatório' raises (no gender) and a fixed choice is kept |
| Orchestrator.AleatorioRaises | baby.py:115 | the counterexample: 'Aleatório' gives no gender |
| Orchestrator.ResolveGender | baby.py:115 | the intended resolution agrees with the written one wherever that one succeeds, and 'Aleatório' gives the random pick |
| Orchestrator.GenerateSingle | baby.py:94-107 | the gender is resolved first; a request is sent exactly when there is a token, and it is the Bearer request carrying that path's payload for the resolved gender; a body comes back exactly on status 200; an image is shown exactly when there is a token, status 200 and a non-empty body, and it is that body |
| Orchestrator.Streak | baby.py:136-141 | the streak counts delivered calls from the start, and the call after it failed |
| Orchestrator.CollectPhases | baby.py:117-143 | after the loop the images are the bodies of the longest delivered prefix, progress counts them, and the requests are those of that prefix plus the failing phase, none after it |
| Orchestrator.GenerateAllPhases | baby.py:113-147 | the gender is resolved once before the loop; the loop's results as above; a grid exists exactly when four images were collected; it is a fresh 1024 × 1024 canvas holding their four pastes, and every pixel shows the picture of its quadrant at its offset inside the quadrant |
| Orchestrator.AllOrNothing | baby.py:145 | the streak reaches four exactly when there is a token and all four replies are status 200 with a non-empty body |
| Orchestrator.NoTokenNothing | baby.py:35-37 | without a token no request is sent in any prefix of the run and no image is collected |
| Orchestrator.RequestsInOrder | baby.py:117-134 | with a token, the requests of the first k phases are one per phase, in the order Bebê, Criança, Adolescente, Adulto, each with that phase's payload for the one resolved gender |
| Orchestrator.PhaseCells | baby.py:60-63 | Bebê's picture is top-left, Criança's top-right, Adolescente's bottom-left, Adulto's bottom-right |

## Left out

- The Streamlit UI is not modelled: page setup, title, sidebar, spinners, `st.text`, `st.error` messages, `st.image` and the captions. The caption's gender is the `gender` result of `Orchestrator.GenerateAllPhases`.
- The progress bar is modelled as the number of completed phases, `progress`, not the float `(i + 1) / 4`.
- The HTTP transport (`requests.post`) and the parsing of JSON error bodies are not modelled. The server's answer is the `Response` input.
- `st.secrets.get` is not modelled. The token is an `Option<string>` input.
- PIL decoding, resizing and pixel data are not modelled. Pictures are opaque `Image` values holding their bytes. A body that PIL cannot decode makes the script raise, and that is not modelled.
- `random.choice` becomes the `pick` input of `Orchestrator.ResolveGender`.
- PyStr.Replace: only non-empty patterns are modelled, since every pattern baby.py replaces is a non-empty constant. Python's empty-pattern case inserts the replacement between characters.
- PyStr.Format: only plain keyword fields and the `{{`/`}}` escapes are modelled. Format specs, conversions, positional and attribute fields are not, because the template uses none of them. Every Python error becomes `None`.
- Orchestrator.CollectPhases: `replies` must hold one answer per phase. Answers to requests that are never sent are ignored.
- Orchestrator.GenerateSingle: `age` must be one of SINGLE_PHASES, the options of the select box.

## Findings

| source | as written | input that shows it | evidently intended | confidence | as-written member | corrected member |
|---|---|---|---|---|---|---|
| baby.py:115 | `random.choice` is called, but the module never imports `random` (baby.py:1-4), so choosing 'Aleatório' raises NameError before any prompt is built; the same holds at baby.py:96 | gender 'Aleatório' | a random pick of 'Menino' or 'Menina', then the normal run | high (not executed) | Orchestrator.ResolveGenderAsWritten | Orchestrator.ResolveGender |
