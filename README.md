# SuperNova site logic in Dafny

This project models the sequential logic of the SuperNova agency website and
proves properties of it. It covers four parts.

- **The contact-form relay** (`cloudflare-worker/worker.js`), written as pure
  functions:
  - the ordered validation chain `validateFormData`;
  - the HTML escaper `sanitizeInput`, proved reversible;
  - the CORS header merge of `jsonResponse`;
  - the status dispatch of `handleRequest`.
- **The hero components of `js/supernova.js`**, written as classes whose
  methods update fields step by step:
  - the `TypingEffect` state machine, over a list of DOM child nodes;
  - the `CosmicParticleCanvas` pool and its per-frame update and connection
    loop;
  - the `FadeInSequence` schedule.
- **The animation controllers of `js/animations.js`**:
  - the tween loop of `animate`, with its start-value defaults, progress
    clamp, segment order and single resolution;
  - the `PageTransition` in-flight guard;
  - the parallax `ticking` flag;
  - the one-shot scroll reveal;
  - the idempotent hero `initTypingEffect`.
- **The page handlers of `js/main.js`**:
  - the client-side submit checks and the submit button;
  - the current-page extraction and active-link loop;
  - the scroll thresholds and the mobile menu;
  - the portfolio filter and the number counters.

Timers, `requestAnimationFrame` callbacks and `IntersectionObserver`
callbacks become explicit event methods on the classes. A field records what
is pending, and the environment calls the event method when it fires.

Other inputs also become parameters:
- `Math.random()` becomes a sequence of samples in [0, 1).
- `Math.sqrt` distances become a distance function that is only assumed
  non-negative.
- An easing curve becomes the eased progress value it returns.
- `sendEmail` becomes a function from the outgoing mail to a success or
  failure result.

Numbers are exact reals or unbounded integers.

The code has no client-side rate limit, so none is modelled.

Module map:
- `wrappers.dfy`: `Option`.
- `js_text.dfy`: JavaScript's `\s`, `trim`, `indexOf`, `lastIndexOf`,
  `endsWith` and the `x || default` fallback.
- `email_pattern.dfy`: both e-mail regular expressions.
- `worker.dfy`: the relay.
- `typing_effect.dfy`, `particle_field.dfy`, `fade_in.dfy`: js/supernova.js.
- `tween.dfy`, `page_transition.dfy`, `parallax.dfy`, `scroll_reveal.dfy`,
  `hero_typing.dfy`: js/animations.js.
- `contact_form.dfy`, `navigation.dfy`, `portfolio.dfy`, `counters.dfy`:
  js/main.js.

## Model

| member | source | states |
|---|---|---|
| JsText.Trim | cloudflare-worker/worker.js:175 | `trim` removes exactly the leading and trailing ECMAScript white space: the result is a slice of the input, with only white space after it and no white space at either end |
| JsText.LeadingWhiteSpace | cloudflare-worker/worker.js:175 | the count covers white space only and stops at the first other character |
| JsText.TrailingWhiteSpace | cloudflare-worker/worker.js:175 | the count covers white space only and stops at the last other character |
| JsText.TrimIdempotent | js/main.js:165 | trimming a trimmed value changes nothing |
| JsText.TrimEmptyIff | js/main.js:165 | a value trims to '' exactly when it is all white space |
| JsText.Utf16Length | cloudflare-worker/worker.js:152 | `length` counts UTF-16 code units: at least one and at most two per character |
| JsText.Utf16LengthIsSize | cloudflare-worker/worker.js:152 | `length` equals the number of characters exactly when no character lies outside the Basic Multilingual Plane |
| JsText.Utf16LengthAppend | cloudflare-worker/worker.js:152 | `length` adds up over concatenation |
| JsText.Utf16LengthSlice | js/main.js:165 | a slice is never longer, in code units, than the string it is cut from |
| JsText.Utf16LengthTrim | js/main.js:180 | a trimmed value is never longer, in code units, than the value |
| JsText.OrInt | js/supernova.js:208-209 | `n \|\| d` gives `n` when it is present and non-zero, and the fallback otherwise |
| JsText.OrReal | js/animations.js:325 | `parseFloat(x) \|\| d` gives the parsed number when it is present and non-zero, and the fallback otherwise |
| JsText.OrString | cloudflare-worker/worker.js:36 | `s \|\| d` gives a non-empty `s`, and the fallback for a missing or empty one |
| JsText.IndexOf | cloudflare-worker/worker.js:147 | the result is the first position of the character, or -1 when it does not occur |
| JsText.LastIndexOf | cloudflare-worker/worker.js:147 | the result is the last position of the character, or -1 when it does not occur |
| JsText.IndexOfAt | cloudflare-worker/worker.js:147 | `indexOf` finds `k` when the character is at `k` and at no earlier position |
| JsText.LastIndexOfAt | cloudflare-worker/worker.js:147 | `lastIndexOf` finds `k` when the character is at `k` and at no later position |
| EmailPattern.MatchesIffShape | cloudflare-worker/worker.js:146-149 | the matcher accepts a string exactly when it splits into local part, '@', domain, '.' and two or more letters to the end, as the regular expression says |
| EmailPattern.ClientStricterThanWorker | js/main.js:172-177 | every address the client pattern accepts, the worker pattern accepts |
| EmailPattern.PlusOnlyAcceptedByWorker | js/main.js:172 | the address '+@a.io', whose local part is a '+', is accepted by the worker's pattern and rejected by the client's |
| Worker.ValidateFormData | cloudflare-worker/worker.js:130-166 | when no error is returned, name, email and message are present and non-empty, the name has a `length` (UTF-16 code units) of 2 to 100 and the message 10 to 2000 |
| Worker.ValidateReportsFirstFailure | cloudflare-worker/worker.js:130-166 | the chain returns rule `e`'s message exactly when `e` fails and every rule checked before it passes |
| Worker.ValidateAcceptsIffAllRulesPass | cloudflare-worker/worker.js:130-166 | `null` comes back exactly when all seven rules pass, with the e-mail rule read as the regular expression's language |
| Worker.ValidateFollowsRules | cloudflare-worker/worker.js:130-166 | the validation function, with both regular expressions read as matchers, is the ordered chain of the seven rules |
| Worker.MissingFieldReportedFirst | cloudflare-worker/worker.js:132-134 | a missing or empty name, email or message gives the required-fields error, whatever else the form holds |
| Worker.SubjectOnlyCheckedWhenGiven | cloudflare-worker/worker.js:161-163 | a missing subject is treated like an empty one and never gives the subject-length error |
| Worker.ReplaceAll | cloudflare-worker/worker.js:176-181 | a global one-character `replace` removes that character when the replacement does not contain it, and changes nothing when the character is absent |
| Worker.ReplaceAllConcat | cloudflare-worker/worker.js:176-181 | a global one-character `replace` distributes over concatenation |
| Worker.ReplaceAllSingle | cloudflare-worker/worker.js:176-181 | a global replace on one character gives the replacement when it is the searched character, and the character otherwise |
| Worker.ReplaceFromDistributes | cloudflare-worker/worker.js:176-181 | the remaining `replace` steps of the chain distribute over concatenation |
| Worker.ReplaceFromKeeps | cloudflare-worker/worker.js:176-181 | `replace` steps leave alone a string holding none of their characters |
| Worker.PlainChar | cloudflare-worker/worker.js:176-181 | a character that no step replaces is not special and escapes to itself |
| Worker.ReplaceFromOneChar | cloudflare-worker/worker.js:176-181 | on one character the remaining steps give its escape: the matching step produces an entity that the later steps leave alone |
| Worker.EscapeHtml | cloudflare-worker/worker.js:171-182 | the per-character escaping leaves no raw `<`, `>`, `"`, `'` or `/` |
| Worker.EntityFor | cloudflare-worker/worker.js:176-181 | each entity of the chain is the escape of its character, and no later step's character occurs in it, because '&' is replaced first |
| Worker.ReplaceChainIsEscape | cloudflare-worker/worker.js:176-181 | the six chained `replace` calls equal per-character escaping of the whole string |
| Worker.EntitiesPrefixFree | cloudflare-worker/worker.js:176-181 | no entity is a prefix of another followed by any text, so decoding is unambiguous |
| Worker.EntityAt | cloudflare-worker/worker.js:176-181 | the entity lookup returns an entity the text starts with, or reports that there is none |
| Worker.EntityAtFirst | cloudflare-worker/worker.js:176-181 | the lookup returns the first entity the text starts with |
| Worker.EntityFront | cloudflare-worker/worker.js:176-181 | an entity at the front decodes to its character, followed by the decoding of the rest |
| Worker.PlainFront | cloudflare-worker/worker.js:176-181 | a character other than '&' at the front decodes to itself |
| Worker.UnescapeFront | cloudflare-worker/worker.js:176-181 | decoding an escaped character followed by any text yields that character first |
| Worker.UnescapeEscape | cloudflare-worker/worker.js:171-182 | decoding the six entities after escaping gives the input back exactly |
| Worker.SanitizeInput | cloudflare-worker/worker.js:171-182 | a missing or empty input gives ''; any other gives the escape of its trimmed value |
| Worker.SanitizeRoundTrip | cloudflare-worker/worker.js:171-182 | the sanitized value holds no raw markup character except the '&' of entities, and reversing the entities yields the trimmed input |
| Worker.UnpaddedReadsBack | cloudflare-worker/worker.js:171-182 | a non-empty value without white space at either end is read back unchanged after sanitizing |
| Worker.SanitizeDefaults | cloudflare-worker/worker.js:92-98 | a missing subject or service becomes 'Contact Form Submission' or 'Not specified' once the escaping is undone; a given subject reads back trimmed |
| Worker.DefaultSubjectReadsBack | cloudflare-worker/worker.js:95 | the default subject 'Contact Form Submission' reads back unchanged after sanitizing |
| Worker.DefaultServiceReadsBack | cloudflare-worker/worker.js:96 | the default service 'Not specified' reads back unchanged after sanitizing |
| Worker.JsonResponse | cloudflare-worker/worker.js:360-368 | the response keeps the status, the body and every given header, adds Content-Type and forces it to application/json |
| Worker.HandleRequestStatus | cloudflare-worker/worker.js:33-124 | the full response, rule by rule, always with the CORS headers: OPTIONS gives 204 without body, GET 200 with the status body, another non-POST 405 'Method not allowed', a foreign Origin 403 'Forbidden', an unparsable body 500 with the processing error, a validation failure 400 with that rule's message; a valid form gives 200 with the success body when the send succeeds, and 500 with 'Failed to send email: ' and the send's error otherwise; no other status occurs |
| Worker.WildcardNeverForbids | cloudflare-worker/worker.js:72-76 | with ALLOWED_ORIGIN unset or '*', no request gets 403 |
| Worker.EveryResponseCarriesCors | cloudflare-worker/worker.js:39-53 | every response carries all four CORS headers with the configured origin; only the 204 preflight has exactly those headers, and every other response is JSON |
| Worker.AstralCharactersCountTwice | cloudflare-worker/worker.js:152-154 | five characters outside the Basic Multilingual Plane have a `length` of 10, so such a message passes the minimum-length rule |
| Worker.DeliveredOnlyAfterValidation | cloudflare-worker/worker.js:78-117 | a 200 to a POST implies an accepted origin, a parsed body that passed validation, and a successful send of the sanitized fields with the default recipient and sender |
| SupernovaTyping.TextOfAppend | js/supernova.js:235-240 | the text of two node lists put together is the two texts put together |
| SupernovaTyping.TextOfCharNodes | js/supernova.js:235-238 | one text node per character reads as the characters |
| SupernovaTyping.CharNodes | js/supernova.js:234-238 | the list holds one single-character text node per character, in order, and no cursor |
| SupernovaTyping.Assigned | js/supernova.js:239-241 | assigning `textContent` leaves at most one text node, no cursor, reading the assigned string |
| SupernovaTyping.FirstIndex | js/supernova.js:234-238 | the position found holds the reference node, and no earlier position does |
| SupernovaTyping.InsertBefore | js/supernova.js:234-238 | `insertBefore` adds one node, placed where the reference node first was |
| SupernovaTyping.Without | js/supernova.js:248-250 | `remove()` leaves no occurrence of the node and adds no node |
| SupernovaTyping.WithoutAbsent | js/supernova.js:248-250 | removing a node that is not there changes nothing |
| SupernovaTyping.WithoutAppend | js/supernova.js:248-250 | removing a node from two lists put together removes it from each |
| SupernovaTyping.TypedShowsPrefix | js/supernova.js:231-244 | after `n` characters the element reads `text[..n]`, and the cursor is present exactly when enabled and is then the last child |
| SupernovaTyping.InsertBeforeCursor | js/supernova.js:234-238 | inserting the next character before the cursor gives the display of one more character |
| SupernovaTyping.AppendWithoutCursor | js/supernova.js:239-241 | without a cursor, appending the next character to `textContent` gives the display of one more character |
| SupernovaTyping.TypeStep | js/supernova.js:231-244 | one step, with or without cursor, turns the display of `n` characters into the display of `n + 1`, reading `text[..n + 1]` |
| SupernovaTyping.CursorRemoved | js/supernova.js:247-250 | removing the cursor after the last character leaves exactly the text; without a cursor nothing changes |
| SupernovaTyping.TypingEffect.constructor | js/supernova.js:205-215 | speed 100 and delay 500 when the option is missing or 0; the cursor is on unless `showCursor` is exactly false |
| SupernovaTyping.TypingEffect.Start | js/supernova.js:217-229 | the element is emptied; the cursor is its only child when enabled; the first step is scheduled after `delay` |
| SupernovaTyping.TypingEffect.Type | js/supernova.js:231-254 | while characters remain, the index grows by one and the next call is scheduled after `speed`; the children are always the display of `currentIndex` characters (with the cursor last when enabled) and read `text[..currentIndex]`; at the end nothing changes but the completion, scheduled after 500 ms |
| SupernovaTyping.TypingEffect.Complete | js/supernova.js:247-253 | the cursor is removed, the element reads the whole text, and `onComplete` has run exactly once |
| SupernovaParticles.Spawn | js/supernova.js:107-115 | a new particle lies on the canvas, with size in [0.5, 2.5), opacity in [0.2, 0.7), speeds in [-0.25, 0.25) and a palette colour |
| SupernovaParticles.Force | js/supernova.js:161 | the mouse force within the radius is in (0, 1] |
| SupernovaParticles.Wrap | js/supernova.js:167-171 | a coordinate inside [0, limit] is kept; below 0 it becomes limit, above the limit 0; the result is always inside |
| SupernovaParticles.Step | js/supernova.js:150-171 | after its drift, mouse push and wrap, a particle lies in [0, width] x [0, height]; only its position changes |
| SupernovaParticles.Alpha | js/supernova.js:185-187 | the line alpha for a distance below 100 is in (0, 0.1] |
| SupernovaParticles.AlphaDecreasing | js/supernova.js:185-187 | touching particles get alpha 0.1, the alpha strictly falls as the distance grows, and within 1 px of 100 it is at most 0.001 |
| SupernovaParticles.RowLines | js/supernova.js:180-193 | one particle's lines go only to later particles, in index order, with alpha in (0, 0.1] |
| SupernovaParticles.FrameLines | js/supernova.js:149-194 | the lines of the first `n` rows of a frame each join a row `i < n` to a later `j`, with alpha in (0, 0.1], and come in (i, j) order |
| SupernovaParticles.LinesConcat | js/supernova.js:180-193 | a line is in two runs of lines put together exactly when it is in either |
| SupernovaParticles.FrameLinesUnfold | js/supernova.js:149-194 | a frame's first `n` rows give the lines of the first `n - 1` rows followed by row `n - 1` |
| SupernovaParticles.FrameLinesAgree | js/supernova.js:149-194 | the first `n` rows only read the first `n` moved particles |
| SupernovaParticles.LastRowLines | js/supernova.js:180-193 | row `n - 1` strokes `(i, j)` exactly when `i` is `n - 1`, `j` is later and moved particle `i` is within 100 of unmoved particle `j`, with that distance's alpha |
| SupernovaParticles.FrameStep | js/supernova.js:149-194 | moving particle `i` of a pool unmoved from `i` on adds row `i` to the lines and leaves the later particles unmoved |
| SupernovaParticles.RowLinesIff | js/supernova.js:180-193 | a row has a line to `j` exactly when `j` is after the particle and closer than 100, with that distance's alpha |
| SupernovaParticles.FrameLinesIff | js/supernova.js:149-194 | a frame strokes `(i, j)` exactly when `i < j` and moved particle `i` is within 100 of not-yet-moved particle `j`, with the matching alpha |
| SupernovaParticles.EachPairOnce | js/supernova.js:180 | no unordered pair is stroked twice in a frame |
| SupernovaParticles.CosmicParticleCanvas.constructor | js/supernova.js:81-97 | the canvas takes the window size and the mouse position is unknown; `init()` spawns 100 particles and draws the first frame at once, so particle `k` sits one `Step` (with no mouse) from where it spawned, all on the canvas, and the first frame's lines are stroked |
| SupernovaParticles.SpawnPool | js/supernova.js:104-117 | the pool of `count` spawned particles has `count` members, all on the canvas |
| SupernovaParticles.CosmicParticleCanvas.Resize | js/supernova.js:99-102 | the canvas takes the window size; particles and mouse position are kept |
| SupernovaParticles.CosmicParticleCanvas.CreateParticles | js/supernova.js:104-117 | the old pool is discarded and exactly `count` particles are spawned in order, all on the canvas |
| SupernovaParticles.CosmicParticleCanvas.OnWindowResize | js/supernova.js:130-133 | a resize regenerates a pool of 100 particles for the new size |
| SupernovaParticles.CosmicParticleCanvas.OnMouseMove | js/supernova.js:135-138 | the mouse position is recorded and nothing else changes |
| SupernovaParticles.CosmicParticleCanvas.OnMouseOut | js/supernova.js:140-143 | the mouse position is forgotten and nothing else changes |
| SupernovaParticles.CosmicParticleCanvas.ConnectRow | js/supernova.js:180-193 | the inner loop strokes exactly the row's lines |
| SupernovaParticles.CosmicParticleCanvas.Frame | js/supernova.js:149-194 | for any per-particle update, the in-place loop leaves particle `k` at its update and strokes exactly the lines of each moved particle to the later, not yet moved ones |
| SupernovaParticles.CosmicParticleCanvas.Animate | js/supernova.js:146-197 | after a frame every particle is on the canvas at its `Step`, and the recorded stroked lines are exactly the frame's lines |
| SupernovaFadeIn.DueAtIncreasing | js/supernova.js:268-273 | with a positive stagger the elements are due in list order, `(j - i) * stagger` apart |
| SupernovaFadeIn.DefaultScheduleIncreasing | js/supernova.js:262-266 | without a stagger (or with 0) the stagger is 300 and the schedule strictly increases; without a delay element `i` is due at `300 * i` |
| SupernovaFadeIn.FadeInSequence.constructor | js/supernova.js:262-266 | delay defaults to 0 and stagger to 300, a 0 also falling back |
| SupernovaFadeIn.FadeInSequence.Start | js/supernova.js:268-274 | each call adds one timer per element after the timers already set, element `i` due at `delay + i * stagger`; earlier timers are kept |
| SupernovaFadeIn.FadeInSequence.Fire | js/supernova.js:270-272 | a firing timer adds only its element to the animated set |
| AnimationsTween.StartTracks | js/animations.js:36-56 | a channel is tracked exactly when its key was requested |
| AnimationsTween.StartDefaults | js/animations.js:36-56 | for each requested channel the track ends at the requested value and starts at the `\|\| default` fallback: opacity from the computed style or 0, transform from the inline style or the identity transform, y from 50, x from 0, scale from 0.95, rotation from 0 (a zero start also falls back); a channel not requested has no track |
| AnimationsTween.Lerp | js/animations.js:65 | interpolation starts at the start value, ends at the end value, and stays between them for progress in [0, 1] |
| AnimationsTween.ScaledBetween | js/animations.js:65 | a difference scaled by a progress in [0, 1] stays between 0 and that difference |
| AnimationsTween.Progress | js/animations.js:60 | progress never exceeds 1, is below 1 exactly while elapsed < duration, and is non-negative for non-negative elapsed time |
| AnimationsTween.Channel | js/animations.js:70-85 | a requested channel gives one segment of its rank with the interpolated value; an absent one gives none |
| AnimationsTween.Make | js/animations.js:70-85 | a segment built for a rank has that rank |
| AnimationsTween.Segments | js/animations.js:68-89 | a frame has at most four segments, and none exactly when none of y, x, scale, rotation was requested, so the transform style is then left as it was |
| AnimationsTween.ChannelsFromRanks | js/animations.js:69-84 | the channels from a rank on give segments only for requested channels, in strictly increasing rank |
| AnimationsTween.ChannelsFromComplete | js/animations.js:69-84 | every requested channel from a rank on has a segment |
| AnimationsTween.ChannelsFromValues | js/animations.js:69-84 | every segment holds its channel interpolated at the eased progress |
| AnimationsTween.SegmentsInOrder | js/animations.js:68-89 | the transform lists translateY, translateX, scale, rotate in that order, each exactly when requested, with its interpolated value |
| AnimationsTween.Tween.constructor | js/animations.js:28-30 | the tween only waits for its delay: no style written, not resolved |
| AnimationsTween.Tween.Begin | js/animations.js:30-56 | the delay ends: the start time and the start and end values are recorded, and a frame is requested |
| AnimationsTween.Tween.Tick | js/animations.js:58-96 | a frame writes opacity when requested and the transform only when some segment exists; it requests another frame exactly while elapsed < duration, and otherwise resolves exactly once |
| AnimationsPageTransition.PageTransition.constructor | js/animations.js:108-112 | a new controller is idle, with no navigation in flight |
| AnimationsPageTransition.PageTransition.OnLinkClick | js/animations.js:119-125 | a click is intercepted exactly when the link is internal (same host, href ending in ".html", no `data-no-transition`), and only then handed to `navigateTo` |
| AnimationsPageTransition.PageTransition.NavigateTo | js/animations.js:156-159 | nothing happens while a navigation is in flight or for the current URL; otherwise the guard is raised and the fade-out starts |
| AnimationsPageTransition.PageTransition.FadeOutDone | js/animations.js:170-180 | after the 500 ms fade-out the page load starts, with the guard still raised |
| AnimationsPageTransition.PageTransition.LoadDone | js/animations.js:217-249 | the guard is lowered; a successful load pushes the URL once; a failed one sets the location without pushing |
| AnimationsPageTransition.PageTransition.OnPopState | js/animations.js:128-130 | back and forward load the page without pushing history and without touching the guard |
| AnimationsPageTransition.SecondClickIgnored | js/animations.js:156-168 | a second navigation while the first is in flight changes nothing |
| AnimationsParallax.Offset | js/animations.js:324-327 | the offset is `-(scrollY * speed)`, with speed 0.5 for a missing, unparsable or zero attribute |
| AnimationsParallax.Parallax.constructor | js/animations.js:314-319 | no frame is pending and no element has been moved |
| AnimationsParallax.Parallax.OnScroll | js/animations.js:333-338 | when elements matched, any scroll leaves exactly one frame pending |
| AnimationsParallax.Parallax.OnFrame | js/animations.js:321-331 | the frame gives every element its offset and clears the flag, leaving no frame pending |
| AnimationsParallax.ScrollBurst | js/animations.js:319-338 | any burst of scroll events followed by one frame leaves no frame pending and every element at its offset |
| AnimationsScrollReveal.RevealDelay | js/animations.js:281 | the delay is the stored `index * 80`, or `batchIndex * 50` for the first element, whose stored 0 is falsy |
| AnimationsScrollReveal.Scheduled | js/animations.js:277-294 | every timer of a batch belongs to an intersecting entry and carries that entry's delay |
| AnimationsScrollReveal.Hit | js/animations.js:277-294 | the hit set holds exactly the targets of the intersecting entries |
| AnimationsScrollReveal.ScrollReveal.constructor | js/animations.js:300-304 | all matched elements are observed and none is revealed |
| AnimationsScrollReveal.ScrollReveal.OnEntries | js/animations.js:277-294 | a batch sets one timer per intersecting entry and unobserves exactly those elements, so no element is ever revealed twice |
| AnimationsScrollReveal.RevealedLeaveObservation | js/animations.js:288-292 | the elements a batch schedules for reveal are exactly its intersecting targets, the same set `Observe` removes from observation |
| AnimationsScrollReveal.ScheduledCovers | js/animations.js:277-294 | every hit element gets a timer |
| AnimationsHeroTyping.HeroTyping.constructor | js/animations.js:416-418 | the page as loaded: nothing captured, nothing pending |
| AnimationsHeroTyping.HeroTyping.Init | js/animations.js:416-437 | without a title or with `dataset.typed` set nothing changes; otherwise the text is captured, the title emptied, the flag set and the first character scheduled after 500 ms |
| AnimationsHeroTyping.HeroTyping.TypeChar | js/animations.js:429-435 | while characters remain, the next one is appended and the next call scheduled after 30 ms; then the chain stops; the title always reads `text[..min(ticks, \|text\|)]` |
| AnimationsHeroTyping.InitTwice | js/animations.js:417-418 | a second call changes nothing: the text is captured and typed once |
| AnimationsHeroTyping.TypeFor | js/animations.js:426-436 | after `k` firings the title reads `text[..min(k, \|text\|)]`, and a timer is still pending exactly while `k <= \|text\|` |
| MainContactForm.ClientCheck | js/main.js:159-184 | a form that passes has all three fields, a trimmed name with a `length` (UTF-16 code units) of at least 2 and a trimmed message of at least 10 |
| MainContactForm.ClientReportsFirstFailure | js/main.js:159-184 | submission is cancelled with check `c`'s alert exactly when `c` fails and every earlier check passes, and it goes through exactly when all three pass |
| MainContactForm.ClientAcceptedMeetsWorkerBasics | js/main.js:165-184 | a form the client accepts has the worker's required fields and message length, and its trimmed e-mail matches the worker's pattern |
| MainContactForm.ClientLooserOnNames | js/main.js:165 | the client accepts the name "R2", which the worker rejects for its characters |
| MainContactForm.SubmitButton.constructor | js/main.js:155-156 | the button starts enabled with its own caption and no alert shown |
| MainContactForm.SubmitButton.OnSubmit | js/main.js:159-192 | a failing check cancels the submission with exactly its alert and leaves the button alone; otherwise there is no alert and the button is disabled, reads 'Sending...' and has opacity 0.7 |
| MainNavigation.LastSegment | js/main.js:57 | the last '/'-separated segment holds no '/', ends the path, and is the whole path or follows a '/' |
| MainNavigation.HomePageIsFileName | js/main.js:57 | the fallback page 'index.html' is a non-empty file name without '/' |
| MainNavigation.CurrentPage | js/main.js:57 | the current page is the last segment, or 'index.html' when that is empty; it is never empty and holds no '/' |
| MainNavigation.CurrentPageOfFile | js/main.js:57 | for a path ending in a file name, the page is that file name, whatever the directories |
| MainNavigation.CurrentPageOfDirectory | js/main.js:57 | a path ending in '/' is the page 'index.html' |
| MainNavigation.ActiveIffCurrent | js/main.js:60 | a link is active exactly when its href equals the current page; the `currentPage === ''` branch never applies |
| MainNavigation.NavLinks.constructor | js/main.js:58-59 | the links keep their `href` attributes and `active` classes |
| MainNavigation.NavLinks.Mark | js/main.js:58-65 | the loop marks exactly the links whose href is the page |
| MainNavigation.NavLinks.UpdateActiveLink | js/main.js:56-66 | afterwards a link has 'active' exactly when its href is the current page; every other link has lost it |
| MainNavigation.VisibleOnlyWhenScrolled | js/main.js:221-227 | the scroll-to-top button only shows on a scrolled navbar; between 50 and 500 the navbar is scrolled and the button hidden |
| MainNavigation.HamburgerFor | js/main.js:32-40 | an open menu hides the middle bar; a closed menu shows the three plain bars |
| MainNavigation.Navbar.constructor | js/main.js:7-8 | the navbar starts unscrolled with the menu closed and no inline bar styles; it records whether the page has a menu button and a scroll-to-top button |
| MainNavigation.Navbar.OnScroll | js/main.js:10-20 | the navbar has 'scrolled' exactly past 50; the scroll-to-top button (js/main.js:216-228) is visible exactly past 500 when the page has one, and untouched when it has none; the menu is untouched |
| MainNavigation.Navbar.OnMenuClick | js/main.js:27-41 | each click toggles the menu, and the bars show the new state |
| MainNavigation.Navbar.OnNavLinkClick | js/main.js:44-51 | any nav-link click leaves the menu closed with the plain bars |
| MainNavigation.ToggleTwice | js/main.js:27-41 | two menu clicks restore the menu's state |
| MainPortfolio.TimerFor | js/main.js:342-356 | a click sets a reveal timer for a matching item and a collapse timer for any other |
| MainPortfolio.ClickTimers | js/main.js:342-357 | a click sets one timer per item, in item order, each the item's reveal or collapse |
| MainPortfolio.ClickConsistent | js/main.js:342-357 | right after a cancelling click, the styles and the click's own timers agree with its filter, no timer is repeated and each names an item |
| MainPortfolio.Restyle | js/main.js:342-356 | a matching item is displayed at once; any other is faded and shrunk at once |
| MainPortfolio.Apply | js/main.js:346-355 | a reveal makes the item opaque at full scale; a collapse takes it out of the layout |
| MainPortfolio.RemovedAt | js/main.js:346-355 | a fired timer leaves the pending list, the others keep their order |
| MainPortfolio.RemoveAt | js/main.js:346-355 | removing a fired timer keeps every other pending timer, and in a list without repeats the fired one is gone |
| MainPortfolio.PortfolioFilter.constructor | js/main.js:323-327 | no item has inline styles, no timer is pending and no filter chosen |
| MainPortfolio.PortfolioFilter.OnClick | js/main.js:329-358 | exactly the clicked button is active and primary, every other secondary; each item gets its immediate restyle and one timer; the earlier timers are kept as written, or cleared when cancelling |
| MainPortfolio.PortfolioFilter.Highlight | js/main.js:334-339 | the clicked button alone is selected |
| MainPortfolio.PortfolioFilter.FilterItems | js/main.js:342-357 | each item is restyled for the filter and gets its timer, in item order |
| MainPortfolio.PortfolioFilter.Fire | js/main.js:346-355 | a firing timer applies its effect to its item only and leaves the pending list |
| MainPortfolio.SettledShowsExactlyMatches | js/main.js:344-356 | with cancelling clicks, once no timer is pending an item is displayed and fully visible exactly when it matches the filter, and out of the layout exactly when it does not |
| MainPortfolio.Settle | js/main.js:344-356 | with cancelling clicks, firing every pending timer in any order settles on the styles of the last filter |
| MainPortfolio.StaleCollapseHidesMatch | js/main.js:342-356 | as written, one filter that hides an item followed by 'all' ends with that item out of the layout although it matches |
| MainPortfolio.CancelledCollapseKeepsMatch | js/main.js:342-356 | with cancelling clicks, the same two clicks leave the item displayed and visible |
| MainCounters.FinalText | js/main.js:116 | the final text is the target, with '+' exactly when the target exceeds 100 |
| MainCounters.PositiveTargetReachedAtSixty | js/main.js:110-116 | adding a sixtieth of a positive target per tick reaches it exactly from the 60th tick |
| MainCounters.NonPositiveTargetReachedAtOnce | js/main.js:109-116 | a target of 0 or below is reached on the first tick |
| MainCounters.Counter.constructor | js/main.js:109-111 | the target is `parseInt(text) \|\| 0` and the increment a sixtieth of it; nothing is shown yet |
| MainCounters.Counter.Tick | js/main.js:113-121 | each tick adds the increment; while below the target the floor of the running value is shown, below the target; at the target the final text is shown and the interval stops; the '+' follows the target > 100 rule |
| MainCounters.RunPositive | js/main.js:113-121 | a positive target stops after exactly 60 ticks, showing its final text |

## Left out

- `sendEmail`: the MailChannels request is not modelled. So are `generateEmailHTML`, the JSON text of the bodies and `Response` construction beyond status, headers and the kind of body. The send is a function parameter that returns success or an error string.
- `request.json()` parsing is not modelled. A body that fails to parse is `None`, and its fields are optional strings. Non-string JSON values are left out.
- The easing curves are not modelled. They are floating-point functions built on `Math.pow` and `Math.sin`; a tween frame receives its eased progress as a parameter.
- Number formatting is left out. This covers the numbers inside style strings (`translateY(..px)`, `translate3d`, `rgba(..)`) and counter text. The model keeps the numbers themselves.
- `Math.sqrt` is not modelled. Distances come from a function parameter that is only assumed non-negative.
- `Math.random()` becomes a sequence of samples in [0, 1).
- Floating-point rounding is not modelled. Counters, particles and tweens use exact reals, so a counter whose float additions fall short of the target takes a tick more than `RunPositive` states.
- Canvas drawing calls are not modelled. A frame records the lines it would stroke.
- The page-transition fetch, DOM parsing, body swap, overlay, `reinitialize`, `animatePageIn` and scroll reset are left out. `LoadDone` receives whether the load succeeded.
- IntersectionObserver geometry (thresholds and root margins) is left out. So are real timer durations and animation-frame timing. Pending timers are recorded with their delays, and the environment chooses which pending event fires next.
- AnimationsScrollReveal.ScrollReveal.OnEntries: requires each batch to list only observed elements, and each at most once. A browser delivers entries only for observed targets.
- JsText.Utf16Length: a string is a sequence of Unicode scalar values, so an unpaired surrogate, which a JavaScript string may hold, is not representable.
- SupernovaTyping.TypingEffect.Type: indexes the text by character, not by UTF-16 code unit. On text outside the Basic Multilingual Plane the source types one surrogate half per tick, so such a character takes two ticks and the first shows half a pair; the model types it in one tick.
- AnimationsHeroTyping.HeroTyping.TypeChar: indexes the title by character, not by UTF-16 code unit, as `TypingEffect.Type` does.
- SupernovaParticles.CosmicParticleCanvas.constructor: the early return when no element has the canvas id is not modelled. Such an object never sets its fields or listeners, so none of its methods ever runs.
- AnimationsTween.Tween.constructor: requires a positive duration. With duration 0 the source computes NaN or infinite progress.
- SupernovaTyping.TypingEffect.Start: requires that `start()` has not run before. A second `start()` while typing would run two timer chains at once, which is not modelled.
- The following are decorative and contain nothing to state beyond their counts, so they are not modelled:
  - `CosmicStarField`, the shooting stars and `initParticleBackground`;
  - the loading screen, cursor follower, magnetic buttons, ripple and glow effects;
  - the hero mouse parallax and the cosmic-orb scroll effect.
- The following handlers only write to the DOM and are not modelled: `initTouchSupport` (whose swipe branches are empty), `initDarkMode`, `initLazyLoading` and the ripple styles.
- Several js/main.js handlers are not modelled:
  - the `animateElementsOnScroll` observer and its debounced re-run on every scroll, which resets and re-observes elements;
  - `staggerAnimation` and the hero `initParallax`;
  - the stats-section observer that starts `animateNumbers`.
- Controllers that write the same `transform` from interleaved events are not modelled. This is event-loop concurrency.

## Findings

| source | as written | input that shows it | evidently intended | confidence | as-written member | corrected member |
|---|---|---|---|---|---|---|
| js/main.js:342-356 | A filter click sets a 300 ms `display = 'none'` timer for each non-matching item and never clears the timers of earlier clicks. | Click a filter that hides an item, then click 'all' within 300 ms. The item is displayed and revealed, then the first click's timer takes it out of the layout. | Once its timers have run, an item is shown exactly when it matches the last filter. Clearing the pending timers on each click achieves this. | not executed | MainPortfolio.StaleCollapseHidesMatch | MainPortfolio.SettledShowsExactlyMatches |
