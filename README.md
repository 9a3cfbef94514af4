# Discord message builder: the document engine, in Dafny

This project models the core of a browser tool that composes Discord webhook
messages. The message is an `EmbedData` document: content, username, avatar,
attachments and up to ten embeds. Every edit in the page goes through a small
copy-on-write engine that enforces Discord's limits:

- at most 10 embeds per message and 25 fields per embed;
- author names of at most 256 characters, footer texts of at most 2048;
- at most 6000 characters per embed, counting the author name, the footer
  text and every field's name and value.

A rejected edit raises a toast and leaves the document as it was.

The page keeps the document in the URL. After every committed edit it waits
1000 ms, an edit made in between restarting the wait. It then writes the
document into the `data` query parameter: JSON, then UTF-8, then URL-safe
unpadded Base64. The page reads that parameter back on load.

The project also models the preview's pure helpers: role-mention splitting,
the small markdown-to-HTML rewrite of field values, the border colour, and the
colour picker's hex formatting and parsing.

Two generations of the page component share the engine. They are one model
parametrised by `Engine.Variant`:

- `V2` is src/components/Builder.tsx, with EmbedEditor and Presets.
- `V1` is src/components/Builder2.tsx.

They differ in three places:

- The embed `addEmbed` appends. V1 always appends the Epic Games store embed.
  V2 appends a bare embed, or a copy of the matching store preset's embed,
  re-stamped with today's date at that preset's hour.
- The character counter for a missing embed. V1 throws a `TypeError`, which
  the model calls `Aborted`.
- The load rule. V2 drops a decoded document that has no embeds.

Modules:

- `Document`: the data model of src/app/types.d.ts, the limits and the
  character count.
- `Lists`: removing one element by index, as `filter((_, i) => i !== index)` does.
- `Base64`: the standard alphabet with padding, over bytes.
- `Codec`: the URL-safe token and its round trip. JSON and UTF-8 are the
  parameter `Codec.Foreign`.
- `Presets`: the preset registry.
- `Engine`: the edit handlers as functions returning an `Outcome`, plus the
  initial-state rule.
- `Editor`: EmbedEditor's field edits and the author, footer and image
  update shapes.
- `Validator`: the imperative `calculateEmbedCharCount` loop.
- `Sync`: the debounced URL publisher. It is a logical-clock state machine
  (`SyncState`, `AdvanceTo`) with a `Debouncer` class whose methods follow it.
- `Session`: the page component as a class. It holds the document, the
  publisher and what the preset selector last loaded, and every handler is a
  method proved against the `Engine` functions.
- `Color`: both colour pickers.
- `Preview`: both preview components' pure helpers.
- `Properties`: the lemmas that relate the operations.

Three behaviours of the code that the model keeps:

- The author-length guard reads the author object the editor passes. That is
  the *spread* author, so a URL or icon edit on an embed whose stored name is
  already longer than 256 characters is turned away (`Properties.AuthorEditSpec`).
- V1's fallback username is "Free Games", and the default preset's username
  is the empty string. V2's preview shows "Captain Hook" for an empty username.
- The limits module is not part of this model. Its values are those the
  toasts state: 10, 25, 256, 2048 and 6000.

## Model

| member | source | states |
|---|---|---|
| Document.FieldCharsAppend | src/components/Builder.tsx:139-143 | the field part of the character count adds up over concatenated field lists |
| Document.FieldCharsRemove | src/components/Builder.tsx:139-143 | removing one field lowers the count by exactly that field's name and value length |
| Lists.RemoveIndexSpec | src/components/Builder.tsx:237-242 | removing index i drops one element when i is in range, keeps every other element in order, and changes nothing when i is out of range |
| Lists.RemoveIndexSlices | src/components/Builder/EmbedEditor.tsx:44-49 | removing index i is `s[..i] + s[i+1..]` when i is in range and `s` otherwise |
| Base64.SextetChar | src/components/Builder.tsx:22-25 | every 6-bit value maps to a character of the Base64 alphabet |
| Base64.CharSextet | src/components/Builder.tsx:37 | a character decodes iff it is in the alphabet, and then to a value below 64 |
| Base64.SextetRoundTrip | src/components/Builder.tsx:22-37 | decoding the character of a 6-bit value gives that value back |
| Base64.PadLength | src/components/Builder.tsx:22-24 | the padding is under 3 bytes and completes the input to a multiple of 3 |
| Base64.EncodeQuantum | src/components/Builder.tsx:22-24 | three bytes give four alphabet characters |
| Base64.EncodeBody | src/components/Builder.tsx:22-24 | the unpadded text has 4 characters per full group plus one more than the leftover bytes, all in the alphabet |
| Base64.Encode | src/components/Builder.tsx:22-24 | the padded text has a length divisible by 4 and holds only alphabet characters and `=` |
| Base64.DecodeQuantum | src/components/Builder.tsx:37 | a group of four decodes iff all four characters are in the alphabet, and then to three bytes |
| Base64.DecodeFinal | src/components/Builder.tsx:37 | the last group decodes to one to three bytes |
| Base64.Decode | src/components/Builder.tsx:37 | strict decoding accepts only text whose length is divisible by 4 |
| Base64.QuantumRoundTrip | src/components/Builder.tsx:22-37 | one full group of three bytes survives an encode and decode |
| Base64.OneByteRoundTrip | src/components/Builder.tsx:22-37 | a single trailing byte survives an encode and decode |
| Base64.TwoByteRoundTrip | src/components/Builder.tsx:22-37 | two trailing bytes survive an encode and decode |
| Base64.RoundTrip | src/components/Builder.tsx:22-37 | decoding the encoding of any byte string gives it back |
| Codec.ReplaceChar | src/components/Builder.tsx:25-26 | a character substitution keeps the length |
| Codec.StripTrailingPadding | src/components/Builder.tsx:27 | the result is a prefix without a trailing `=`, and only `=` was removed |
| Codec.Repad | src/components/Builder.tsx:32-33 | the token is kept as a prefix and fewer than four `=` characters are appended, just enough to reach a multiple of 4 (none when the length already is one) |
| Codec.EncodeEmbedData | src/components/Builder.tsx:22-28 | the token holds only URL-safe characters and its length is never 1 more than a multiple of 4 |
| Codec.DecodeEmbedData | src/components/Builder.tsx:30-43 | a token that is not Base64 after re-padding and un-mapping decodes to no document (the `null` path) |
| Codec.UrlSafeRoundTrip | src/components/Builder.tsx:22-37 | re-padding and un-mapping a URL-safe token gives back the standard Base64 text |
| Codec.RoundTrip | src/components/Builder.tsx:22-43 | whenever JSON and UTF-8 round-trip a document, decoding its token gives the document back |
| Codec.TokenHasNoReservedChars | src/components/Builder.tsx:25-27 | a token never holds `+`, `/` or `=` |
| Presets.Preset | src/components/Builder/Presets.tsx:29-94 | every preset is within all of the message limits |
| Presets.StoreEmbedWithinLimits | src/components/Builder/Presets.tsx:38-60 | a store embed with a short author name is within the limits and counts exactly author, footer and field characters |
| Presets.DefaultIsEmpty | src/components/Builder/Presets.tsx:30-35 | the default preset is the empty document |
| Presets.StorePresetsShape | src/components/Builder/Presets.tsx:36-93 | both store presets hold one embed with colour 0x85ce4b, the Game field, the "Offer ends" footer and today's timestamp at the preset's hour, and share content, username and avatar |
| Presets.StoreIconsDiffer | src/components/Builder/Presets.tsx:51-80 | the two store presets agree on username and avatar and differ in their author icon |
| Engine.Assign | src/components/Builder.tsx:190-193 | `{ ...e, [key]: value }`: the addressed key takes the value and every other key keeps its own |
| Engine.UpdateEmbed | src/components/Builder.tsx:185-235 | each outcome holds iff its guard holds, tried in order: author too long, footer too long, V1's throw on a missing embed, over 6000 characters. The edit commits iff none of these holds, in both variants and for any i. A commit changes only embed i and only when i is in range |
| Engine.FindPreset | src/components/Builder.tsx:159-164 | `find` returns the first preset in registry order that matches the document on username, avatar and the first embed's author icon, and none when no preset matches |
| Engine.AddEmbed | src/components/Builder.tsx:147-183 | rejected with MaxEmbeds iff there are already 10 embeds, never aborted. A commit appends the variant's new embed and changes nothing else |
| Editor.Merge | src/components/Builder/EmbedEditor.tsx:37-40 | `{ ...f, ...p }`: each key the patch holds overrides the field's |
| Editor.AddField | src/components/Builder/EmbedEditor.tsx:27-35 | rejected with MaxFields when the embed already has 25 fields, otherwise the engine's update with one empty field appended |
| Editor.AuthorEdit | src/components/Builder/EmbedEditor.tsx:84-110 | the author input spreads the existing author and sets only the edited key |
| Validator.CalculateEmbedCharCount | src/components/Builder.tsx:135-145 | the loop's total equals the author name length plus the footer text length plus every field's name and value lengths |
| Properties.RetryGivesSameOutcome | src/components/Builder.tsx:185-235 | an embed edit that is turned away leaves the document unchanged, so repeating it is turned away with the same toast; one that commits commits the same document when repeated |
| Properties.RemoveEmbedSpec | src/components/Builder.tsx:237-242 | removing embed i shifts later embeds down by one, keeps the metadata, and changes nothing when i is out of range |
| Properties.UpdateMetadataSpec | src/components/Builder.tsx:244-252 | a metadata edit sets exactly that key and keeps the embeds and the other keys |
| Properties.DefaultExcludesStores | src/components/Builder.tsx:159-164 | a document matched by the default preset is matched by neither store preset |
| Properties.AtMostOneStoreMatches | src/components/Builder.tsx:159-164 | no document matches both store presets |
| Properties.SeedingRule | src/components/Builder.tsx:155-177 | V2's new embed is the Epic Games store embed stamped at 18:00 when that preset matches, else the Steam store embed stamped at 00:00 when that one matches, else the bare embed |
| Properties.NewEmbedV2WithinLimits | src/components/Builder.tsx:66-71 | every embed V2's addEmbed can append is within the embed limits |
| Properties.AddEmbedPreservesLimits | src/components/Builder.tsx:147-183 | a committed addEmbed keeps a document within the limits |
| Properties.UpdateEmbedPreservesLimits | src/components/Builder.tsx:185-235 | a committed updateEmbed keeps a document within the limits, provided field lists come from the field editor (at most 25) |
| Properties.RemoveEmbedPreservesLimits | src/components/Builder.tsx:237-242 | removing an embed keeps a document within the limits |
| Properties.UpdateEmbedCommitsSpread | src/components/Builder.tsx:229-234 | an in-range V2 edit that passes the guards commits `{ ...embed, [key]: value }` at index i |
| Properties.UpdateMissingEmbed | src/components/Builder2.tsx:174-207 | an edit addressed to a missing embed never changes the document in either variant |
| Properties.EmptyFieldIsFree | src/components/Builder/EmbedEditor.tsx:34 | the appended empty field adds no characters |
| Properties.AddFieldAppends | src/components/Builder/EmbedEditor.tsx:27-35 | addField is rejected iff the embed has 25 fields, and otherwise appends one empty field to that embed alone |
| Properties.AddFieldPreservesLimits | src/components/Builder/EmbedEditor.tsx:27-35 | a committed addField keeps a document within the limits |
| Properties.UpdateFieldSpec | src/components/Builder/EmbedEditor.tsx:37-42 | updateField commits iff the merged embed is within 6000 characters, and then merges the patch into field fi alone. An out-of-range fi commits the same fields |
| Properties.UpdateFieldPreservesLimits | src/components/Builder/EmbedEditor.tsx:37-42 | a committed updateField keeps a document within the limits |
| Properties.RemoveFieldSpec | src/components/Builder/EmbedEditor.tsx:44-49 | removeField on a within-limit embed always commits the field list without field fi |
| Properties.RemoveFieldPreservesLimits | src/components/Builder/EmbedEditor.tsx:44-49 | a committed removeField keeps a document within the limits |
| Properties.AuthorEditSpec | src/components/Builder/EmbedEditor.tsx:84-110 | an author edit is rejected for length iff the resulting name is over 256 characters (the new one for a name edit, the stored one otherwise) |
| Properties.FooterEditSpec | src/components/Builder/EmbedEditor.tsx:142-146 | a footer edit is rejected iff the text is over 2048 characters, and a commit sets the footer to that text alone |
| Properties.ImageEditSpec | src/components/Builder/EmbedEditor.tsx:132 | an image edit commits iff the embed's count is within 6000, then setting the image to that URL alone |
| Properties.TokenNotEmpty | src/components/Builder.tsx:22-28 | the token of a document with a non-empty serialization is never empty, so it is read back on load |
| Properties.ReloadRestores | src/components/Builder.tsx:83-90 | loading the page with a published token restores the document (for V2, one with at least one embed) |
| Properties.ReloadDropsEmptyV2 | src/components/Builder.tsx:83-90 | V2 replaces a decoded document without embeds by the default document |
| Properties.FallbackDocuments | src/components/Builder2.tsx:93-106 | without a `data` parameter, V2 starts from the empty document and V1 from its store content, its username "Free Games", its bot avatar URL and its default embed |
| Sync.Start | src/components/Builder.tsx:45-64 | a fresh publisher has no pending call, is not updating, and has pushed nothing |
| Sync.Debounce | src/components/Builder.tsx:51-54 | a call schedules the publish 1000 ms from now with the latest document and changes nothing else |
| Sync.CancelPending | src/components/Builder.tsx:56-61 | `cancel` clears the pending publish and nothing else |
| Sync.AdvanceTo | src/components/Builder.tsx:112-123 | advancing the clock fires a due publish exactly once, appending that document's token to the history |
| Sync.CancelIdempotent | src/components/Builder.tsx:56-61 | cancelling twice is cancelling once |
| Sync.CancelBeforeCall | src/components/Builder.tsx:130-133 | the effect's cleanup followed by a new call is the same as that call alone |
| Sync.UpdatingWindow | src/components/Builder.tsx:114-120 | once a publish fires, isUpdating holds until 500 ms after it fired |
| Sync.Replay | src/components/Builder.tsx:130-133 | replaying edits keeps the publisher consistent and ends at the last edit's time |
| Sync.BurstCollapses | src/components/Builder.tsx:45-64 | a burst of edits less than 1000 ms apart pushes nothing and leaves one publish pending, for the last document |
| Sync.BurstPublishesLast | src/components/Builder.tsx:112-133 | 1000 ms after a burst's last edit, exactly one token is pushed, and it decodes to the last document |
| Sync.Debouncer.constructor | src/components/Builder.tsx:125-128 | a new publisher is in the start state |
| Sync.Debouncer.Call | src/components/Builder.tsx:51-54 | the method performs Debounce on its fields |
| Sync.Debouncer.Cancel | src/components/Builder.tsx:56-61 | the method performs CancelPending on its fields |
| Sync.Debouncer.RunClear | src/components/Builder.tsx:119-120 | the method performs ClearBy on its fields |
| Sync.Debouncer.RunPending | src/components/Builder.tsx:112-117 | the method performs Fire on its fields |
| Sync.Debouncer.Tick | src/components/Builder.tsx:112-123 | the method performs AdvanceTo on its fields |
| Session.Builder.constructor | src/components/Builder.tsx:83-90 | the page starts from the initial-state rule with the effect's first call pending |
| Session.Builder.SetEmbedData | src/components/Builder.tsx:289 | loading a document replaces it and reschedules the publisher |
| Session.Builder.AddEmbed | src/components/Builder.tsx:147-183 | the handler's outcome is the engine's, and the publisher is rescheduled iff the edit committed |
| Session.Builder.UpdateEmbed | src/components/Builder.tsx:185-235 | the imperative handler's outcome is the engine's, and the publisher is rescheduled iff the edit committed |
| Session.Builder.RemoveEmbed | src/components/Builder.tsx:237-242 | the document becomes the engine's removal and the publisher is rescheduled |
| Session.Builder.UpdateMetadata | src/components/Builder.tsx:244-252 | the document becomes the engine's metadata update and the publisher is rescheduled |
| Session.Builder.AddField | src/components/Builder/EmbedEditor.tsx:27-35 | the outcome is the editor's addField |
| Session.Builder.UpdateField | src/components/Builder/EmbedEditor.tsx:37-42 | the outcome is the editor's updateField |
| Session.Builder.RemoveField | src/components/Builder/EmbedEditor.tsx:44-49 | the outcome is the editor's removeField |
| Session.Builder.LoadFromClipboard | src/components/Builder/EmbedPreview.tsx:39-49 | the clipboard text loads iff it parses as well-typed `EmbedData`, and otherwise nothing changes |
| Session.Builder.SelectPreset | src/components/Builder/EmbedPreview.tsx:69-72 | choosing a preset loads it. Choosing the preset already shown leaves the publisher alone, because React bails out on the same object |
| Session.Builder.Tick | src/components/Builder.tsx:112-123 | time passing advances the publisher |
| Session.Builder.Unmount | src/components/Builder.tsx:132 | unmounting cancels the pending publish |
| Color.DigitChar | src/components/Builder/ColorPicker.tsx:15 | every digit value below 16 has a digit in 0-9 or lower-case a-f that reads back as that value |
| Color.HexDigits | src/components/Builder/ColorPicker.tsx:15 | `toString(16)` of a natural number is a non-empty run of digits in 0-9 and lower-case a-f, without a leading zero |
| Color.PadStart | src/components/Builder/ColorPicker.tsx:15 | `padStart` adds zeros in front up to the width and leaves longer text alone |
| Color.RemoveFirstHash | src/components/Builder/ColorPicker.tsx:18 | `replace('#', '')` drops a leading `#` and leaves text without one alone |
| Color.RemoveFirstHashAt | src/components/Builder/ColorPicker.tsx:18 | `replace('#', '')` removes the first `#`, wherever it is, and keeps everything before and after it |
| Color.HexPrefix | src/components/Builder/ColorPicker.tsx:18 | parseInt reads the longest run of hex digits |
| Color.ParseInt16 | src/components/Builder/ColorPicker.tsx:18 | parseInt is NaN iff no hex digit follows the optional sign and `0x` prefix |
| Color.HexDigitsValue | src/components/Builder/ColorPicker.tsx:15-18 | reading back `toString(16)` gives the number |
| Color.HexDigitsLength | src/components/Builder/ColorPicker.tsx:15 | the hex text has at most k+1 digits iff the number is below 16^(k+1) |
| Color.HexColorLength | src/components/Builder/ColorPicker.tsx:15-50 | the shown colour has exactly 7 characters iff it is at most 0xFFFFFF, and never fewer |
| Color.RoundTrip | src/components/Builder_v1/ColorPicker.tsx:21-25 | parsing the shown text of a 24-bit colour gives the colour back |
| Color.ResetColor | src/components/Builder/ColorPicker.tsx:13-37 | "Reset to Default" yields 0x85ce4b, which is shown as "#85ce4b" |
| Preview.DigitRun | src/components/Builder/EmbedPreview.tsx:156 | the digit run is maximal and stays in bounds |
| Preview.MentionLength | src/components/Builder/EmbedPreview.tsx:156 | a match found at the start is a whole role mention |
| Preview.SplitFromSpec | src/components/Builder/EmbedPreview.tsx:155-157 | the split from any position concatenates back to the text, and alternates text with mentions |
| Preview.SplitMentionsSpec | src/components/Builder_v1/EmbedPreview.tsx:123 | `split(/(<@&\d+>)/)` gives an odd number of parts that concatenate back to the content, with mentions at odd positions and no mention in the even ones |
| Preview.RoleChipsAtOddPositions | src/components/Builder/EmbedPreview.tsx:155-170 | a part is shown as the role chip iff its position is odd, and the other parts are shown as text |
| Preview.ReplaceNewlines | src/components/Builder/EmbedPreview.tsx:218 | no newline is left |
| Preview.FirstIndex | src/components/Builder/EmbedPreview.tsx:220 | the scan stops at the first occurrence of the character, or at the end |
| Preview.LinkAt | src/components/Builder/EmbedPreview.tsx:220 | a link match consumes a non-empty, in-bounds prefix |
| Preview.Anchor | src/components/Builder/EmbedPreview.tsx:221 | the anchor holds no newline when its text and URL hold none |
| Preview.ReplaceLinks | src/components/Builder/EmbedPreview.tsx:219-222 | rewriting links introduces no newline |
| Preview.CloseAt | src/components/Builder/EmbedPreview.tsx:223-224 | the lazy search finds the first closing pair, with no line terminator before it; it finds none exactly when every later pair has a line terminator before it |
| Preview.ReplacePairs | src/components/Builder/EmbedPreview.tsx:223-224 | rewriting `**` or `~~` pairs introduces no newline |
| Preview.RenderValue | src/components/Builder_v1/EmbedPreview.tsx:181-188 | a rendered field value holds no newline |
| Preview.LinkRule | src/components/Builder/EmbedPreview.tsx:219-222 | `[a](b)` with non-empty a free of `]` and non-empty b free of `)` becomes an anchor, and the rewrite carries on after it |
| Preview.EmptyUrlIsNotALink | src/components/Builder/EmbedPreview.tsx:220 | `[a]()` is left as written, because the URL must be non-empty |
| Preview.PlainText | src/components/Builder/EmbedPreview.tsx:219-222 | text without `[` is not changed by the link rewrite |
| Preview.PairRule | src/components/Builder/EmbedPreview.tsx:223-224 | `ddxdd`, where no pair dd starts inside x and x holds no line terminator, becomes the opening tag, x and the closing tag, and the rewrite carries on after it |
| Preview.NewlinesAppend | src/components/Builder/EmbedPreview.tsx:218 | the newline rewrite distributes over concatenation |
| Preview.StoreValueMarkup | src/components/Builder/EmbedPreview.tsx:217-224 | a store field value renders to struck price, bold word, a line break and the link text |
| Preview.GameFieldMarkup | src/components/Builder/Presets.tsx:44 | the preset's Game field renders as struck "€", bold "Free", a break and "[Claim Game]()" |
| Preview.DisplayName | src/components/Builder/EmbedPreview.tsx:144 | V1 shows the username as is. V2 never shows an empty name and shows a non-empty username as is |
| Preview.StoreEmbedView | src/components/Builder/EmbedPreview.tsx:178-238 | a store embed has the "#85ce4b" border and shows its footer line |
| Preview.BareEmbedView | src/components/Builder/EmbedPreview.tsx:178-238 | V2's bare embed has the "#000000" border and no footer line |

## Left out

- Webhook sending, credential storage (localStorage and decrypt) and message editing: network and storage I/O.
- The URL write is modelled as `history`, one token per `router.push`. `URLSearchParams` and the routing itself are left out.
- `resetData` (history replaceState and page reload): navigation.
- Clipboard reading and writing, and the copy button's flag. The clipboard text is a parameter of `LoadFromClipboard`.
- Toasts and `console.error`: a toast appears as the `Violation` a rejection carries.
- JSX layout, styling and the `showDiscordPreview` toggle: presentation.
- TimestampPicker, date-fns formatting and time zones. Clock readings are parameters (`Loaded.todayAt`, `nowAt`, the logical clock of `Sync`).
- JSON.stringify, JSON.parse and the UTF-8 conversions are opaque functions in `Codec.Foreign`. Their round trip is a precondition (`Codec.RoundTripsAt`).
- Shapes JSON cannot express in the types: clipboard text and decoded tokens are assumed to parse into well-typed `EmbedData`. In particular, the clipboard text `null` parses in JavaScript. The page then calls `onLoadFromClipboard(null)` and shows the success toast. The model's `parse` gives `None` for it, and the load leaves the document unchanged.
- Base64.Decode: strict, whereas Node's decoder silently skips characters outside the alphabet. A token the page produced is decoded the same way by both.
- Document.CharCount: counts Unicode characters, whereas JavaScript's `length` counts UTF-16 code units.
- The `maxLength` input attributes: they only limit typing, and the guards are modelled.
- React StrictMode's doubled effects, and the batching of state updates.
- The V1 field editor (EmbedFields) is not part of this model. Field edits are V2's EmbedEditor only.
- Color.ParseInt16: does not skip leading whitespace.
- A colour text with no hex digit: the code commits `NaN` as the embed's colour, since `updateEmbed` has no colour guard. The model's colour is an integer, so `ParseColor` returns `None` and the model leaves this edit out.
- Preview.SplitMentions: positions are Unicode characters, not UTF-16 code units.
- Preview.RenderValue: produces the HTML text, not its rendering. Each regular expression is modelled as its own scan; the lazy `(.*?)` is the line-terminator-free search `CloseAt`.
- The bot-settings and message-content inputs: they call `updateMetadata`, which is modelled.
