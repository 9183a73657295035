# Password generator: a verified model of its core

The password generator is a browser page around one object, `PasswordGenerator`.
Four pieces of it hold its logic, and this project models those pieces in Dafny and
proves properties about them:

- **alphabet building** (`getAvailableChars`). The character classes whose checkboxes
  are ticked are concatenated in a fixed order: uppercase, lowercase, numbers, symbols.
  When nothing is ticked, the method falls back to lowercase + uppercase + numbers and
  ticks those three boxes. When "exclude similar" is ticked, it drops the characters
  `il1Lo0O`.
- **character selection** (the loop of `generatePassword`). Character `i` of the
  password is the alphabet entry at `draws[i]` modulo the alphabet's length, where
  `draws` are the unsigned 32-bit random values.
- **strength scoring** (`calculateStrength`). One point for each length tier reached
  (8, 12, 16), one point for each character class present (lower, upper, digit,
  anything else), capped at 4.
- **history** (`addToHistory`). Entries with the same password are dropped, the new
  entry goes to the front, and the list is cut to 10 entries.

Files and modules:

- `charsets.dfy`, module `Charsets`. It holds the class strings and the similar
  characters. `AvailableChars` is the value-level specification of alphabet building:
  it returns the alphabet together with the checkbox state that building leaves behind.
  The lemmas about it are in the same file.
- `scoring.dfy`, module `Scoring`. `CalculateStrength` is a pure function, with lemmas.
- `history.dfy`, module `History`. `HistoryItem`, the filter `Without` and the
  specification `Recorded` of one history update, with lemmas. `RecordAll` records a
  whole sequence of entries.
- `generator.dfy`, module `Generator`. `DrawPassword` is the selection loop, as a method
  with loop invariants. Class `PasswordGenerator` has the checkboxes, the output field,
  the strength level shown, and the history as fields. Its methods `GetAvailableChars`,
  `GeneratePassword` and `AddToHistory` update those fields step by step, as the source
  does. Each method's postcondition ties the new state to the specification functions.

The random source, the clock and the slider value are parameters. `GeneratePassword`
takes the requested length and the sequence of 32-bit draws, and `AddToHistory` takes
the formatted timestamp as an opaque string.

The fallback lists its classes in a different order from an explicit selection. With
no box ticked the code builds lowercase + uppercase + numbers (js/script.js:61), while
ticking those three boxes gives uppercase + lowercase + numbers (js/script.js:55-57).
`FallbackMatchesExplicit` proves that the two have the same characters (as a multiset
and as a set) and that the two sequences differ.

## Model

| member | source | states |
|---|---|---|
| Charsets.WithoutSimilar | js/script.js:67-71 | the filtered alphabet is no longer than the input and contains no character of `il1Lo0O` |
| Charsets.WithoutSimilarKeeps | js/script.js:67-71 | every character outside `il1Lo0O` keeps its number of occurrences |
| Charsets.WithoutSimilarMember | js/script.js:67-71 | a non-similar character is in the filtered string exactly when it is in the input |
| Charsets.WithoutSimilarAppend | js/script.js:67-71 | filtering a concatenation filters each part in place, so the kept characters keep their relative order |
| Charsets.WithoutSimilarClean | js/script.js:67-71 | a string without similar characters is left unchanged |
| Charsets.CapitalIKept | js/script.js:10 | uppercase `I` is not a similar character: with uppercase ticked it stays in the filtered alphabet |
| Charsets.Selected | js/script.js:53-60 | the concatenation of the ticked classes, in the order uppercase, lowercase, numbers, symbols, is empty exactly when no box is ticked (the `!chars` test) |
| Charsets.AvailableChars | js/script.js:52-74 | the alphabet and the checkbox state after building: some box is always ticked afterwards, the symbols box is untouched, and with exclusion no similar character remains (further characterised by SelectedOrder, FallbackWhenNone, FallbackMatchesExplicit, AvailableNonEmpty) |
| Charsets.SelectedOrder | js/script.js:53-58 | with at least one box ticked, the boxes are unchanged and the alphabet is the ticked classes in the order uppercase, lowercase, numbers, symbols (filtered when asked) |
| Charsets.FallbackWhenNone | js/script.js:60-65 | with no box ticked, lowercase, uppercase and numbers become ticked, symbols keeps its value, and the alphabet is lowercase + uppercase + numbers (filtered when asked) |
| Charsets.FallbackMatchesExplicit | js/script.js:55-65 | the fallback and an explicit lowercase + uppercase + numbers selection leave the same boxes ticked and give the same characters as a multiset and as a set, in a different order |
| Charsets.AvailableNonEmpty | js/script.js:4-7 | for every checkbox state and exclude flag, the alphabet is non-empty, so the empty-alphabet branch at js/script.js:80-85 is never taken |
| Scoring.CalculateStrength | js/script.js:100-114 | the level is in 0..4, it is 0 exactly for the empty password, and every password of 16 or more characters gets 4 |
| Scoring.ExampleScore | js/script.js:104-113 | `K7dpLQ93vxTz` scores 4: two length points and three class points, capped |
| Scoring.LowercaseShortScore | js/script.js:104-113 | a non-empty lowercase-only password shorter than 8 scores 1 |
| Scoring.AppendMonotone | js/script.js:104-113 | appending characters never lowers the level |
| Scoring.TwelveScoresThree | js/script.js:104-113 | every password of 12 or more characters scores at least 3 |
| History.Without | js/script.js:155 | the filtered history is no longer than the input, has no entry with the given password, and contains only old entries |
| History.WithoutMember | js/script.js:155 | an entry survives the filter exactly when it was present and has another password |
| History.WithoutAppend | js/script.js:155 | filtering keeps the relative order of the surviving entries |
| History.WithoutAbsent | js/script.js:155 | a history without the password is left unchanged by the filter |
| History.WithoutDistinct | js/script.js:155 | filtering keeps the passwords of a history distinct |
| History.Recorded | js/script.js:151-161 | after recording, the new entry is first, there are between 1 and 10 entries, and the password occurs only in the first |
| History.RecordedRest | js/script.js:155-161 | the entries behind the new one are the first (at most 9) old entries with another password, in their old order |
| History.RecordedDistinct | js/script.js:155-161 | if the old history had distinct passwords, so does the new one |
| History.RecordAgain | js/script.js:151-161 | recording the password just recorded only replaces its timestamp |
| History.RecordAllDistinct | js/script.js:151-161 | recording entries with distinct passwords into an empty history leaves the 10 most recent of them, most recent first |
| Generator.DrawPassword | js/script.js:87-93 | the password has one character per draw, character i is the alphabet entry at draws[i] modulo the alphabet's length, and every character belongs to the alphabet |
| Generator.PasswordGenerator.constructor | js/script.js:2-19 | the checkboxes and the history start as loaded, the output field holds the value the page gives it, and the strength bar shows 0 as after `updateStrength(0)` |
| Generator.PasswordGenerator.GetAvailableChars | js/script.js:52-74 | the returned alphabet and the new checkbox state are those of `AvailableChars` for the old state |
| Generator.PasswordGenerator.GeneratePassword | js/script.js:76-98 | the checkboxes are updated as by alphabet building; with an empty alphabet the output is cleared and the level is 0; otherwise the output has the requested length, is drawn character by character from the alphabet, has no similar character when those are excluded, and the shown level is its strength |
| Generator.PasswordGenerator.AddToHistory | js/script.js:151-162 | the new history is `Recorded` of the old one, and distinct passwords stay distinct |

## Left out

- Page wiring and rendering: `initializeElements`, `bindEvents`, `updateStrength`
  (only the level passed to it is kept, as `shownStrength`), `updateHistoryDisplay`,
  `showNotification` with its auto-dismiss timer, and the placeholder texts of the
  output field. They are display side effects.
- `copyToClipboard`, an asynchronous browser clipboard call with a selection-based
  fallback.
- `copyHistoryItem` (js/script.js:182-186). It synchronously puts the chosen password
  into the output field and hands its strength to the strength bar, which the class
  would hold in `passwordOutput` and `shownStrength`; those two field updates are left
  out with it, because the call then goes on into the clipboard copy.
- Persistence: loading the history in the constructor, the store step of
  `addToHistory`, `saveSettings` and `loadSettings`. These are browser storage and JSON
  calls. The constructor takes the loaded history and checkbox state as parameters.
  `JSON.parse` (js/script.js:11) throws on malformed stored history; a missing key,
  or a stored falsy JSON value such as `null`, gives `[]`. The program itself only
  ever stores an array (js/script.js:163).
- The page markup, which sets the checkboxes' and the output field's initial values.
  The constructor takes them as parameters.
- `window.crypto.getRandomValues`. The draws are an input sequence of 32-bit values, so
  uniformity and modulo bias are not modelled. The browser's limit on how many values
  one call may fill is not modelled either.
- `parseInt` of the slider value. The length is a natural number, and the draws are
  required to have that length, as the `Uint32Array` of that length does.
- `new Date().toLocaleString()`. The timestamp is an opaque string.
- Scoring.CalculateStrength: JavaScript measures length in UTF-16 code units, while the
  model counts Unicode characters. The two agree on every generated password, because
  every class character is ASCII.
