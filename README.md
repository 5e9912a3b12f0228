# CQMU annual report: slide navigation, in Dafny

The annual report is a single-page slide deck. `script.js` keeps everything in a few module-level variables:

- a fixed, ordered list of slide ids, with a `loading` sentinel first and an `ending` sentinel last;
- the index of the slide on screen;
- a transition lock that is held for 500 ms after each slide change.

Every way of moving becomes a request to `showPage`. That covers swipes, arrow keys, the cover click, the home button and the navigation dots. While the lock is held, `showPage` drops the request. Otherwise `showPage` moves to the slide and redraws the navigation chrome: progress bar, dot row, visibility of the global bar, page number.

Around the deck sit a few small pieces of logic, also modelled here:

- the subscription e-mail check;
- the feedback-message check;
- the fallbacks used when drawing a team member's card;
- the department carousel's wrap-around index;
- the memoised loader of the team file.

Modules, in dependency order:

- `Wrappers`: `Option`.
- `JsText`: the parts of JavaScript string semantics the script relies on.
  - The `\s` whitespace class and `trim`.
  - `indexOf`, which returns -1 when the item is absent.
  - `split` on a single character.
  - The decimal rendering of a number.
- `Slides`: the slide registry.
- `NavView`: what `updateNavigation` draws. It is pure, except for the dot-building loop, which is a method.
- `Input`: the touch and key classifiers, and the guard on relative moves.
- `Navigation`: class `Navigator`, with the index, the lock, the drawn chrome and the touch origin. It has one method per event.
- `Forms`: the e-mail and message fields.
- `Members`: member cards.
- `Slider`: class `DeptSlider`. A carousel with no slides produces NaN, which is modelled explicitly as `NaN`.
- `TeamLoader`: class `Loader`, the cache and in-flight flag of the team-file loader.

The 500 ms transition timer is the explicit call `Navigator.ReleaseLock`. Browser events are method calls with their coordinates, key names and click targets as parameters. The network response of the team file is a parameter of `Loader.FetchSettled`.

A caller that finds a load in flight does not wait on that load's promise. It polls every 100 ms for a filled cache, so it gets the roster when the load succeeds, never sees its failure, and after a failure keeps waiting until some later fetch succeeds. `Loader.Poll` and `FailedLoadRetried` state this behaviour.

## Model

| member | source | states |
|---|---|---|
| Slides.PagesShape | script.js:8-11 | The registry holds 14 distinct ids. `loading` is at 0, `cover` at 1 and `ending` last. The content slides `pageN` are exactly the indices strictly between the cover and the ending. |
| Slides.IndexOfDistinct | script.js:63 | In a list of distinct ids, `indexOf` of the id at position `i` is `i`. |
| JsText.IndexOf | script.js:63 | The result is -1 exactly when the item is absent. Otherwise it is a position holding the item, with no earlier occurrence. |
| JsText.TrimStart | script.js:295 | The result is a suffix of the input: everything dropped is whitespace, and the result is empty or starts with a non-whitespace character. |
| JsText.TrimEnd | script.js:295 | The result is a prefix of the input: everything dropped is whitespace, and the result is empty or ends with a non-whitespace character. |
| JsText.Trim | script.js:295 | `trim` returns a slice of its input with only whitespace before and after it, and a non-empty result starts and ends with a non-whitespace character. |
| JsText.TrimNonEmptyIff | script.js:295 | `s.trim()` is non-empty exactly when `s` holds a non-whitespace character. |
| JsText.Split | script.js:666 | `split` gives at least one piece, and no piece contains the separator. |
| JsText.SplitJoin | script.js:666 | Joining the pieces with the separator gives back the input. |
| JsText.SplitSingleIff | script.js:666-667 | There is more than one piece exactly when the input contains the separator. |
| JsText.SplitFirstPiece | script.js:666 | The first piece is the text before the first separator, or the whole text if there is none. |
| JsText.SplitSecondPiece | script.js:666-667 | The second piece is the text right after the first separator, up to the next separator or the end. |
| NavView.Progress | script.js:84 | The progress percentage is 0 exactly on the loading slide and 100 exactly on the ending slide. |
| NavView.ProgressEnds | script.js:84 | The progress bar is at 0 % on the loading slide and at 100 % on the ending slide. |
| NavView.ProgressStrictlyIncreasing | script.js:84 | A later slide always shows a wider progress bar. |
| NavView.ProgressBounds | script.js:84 | On every registered slide the progress is between 0 % and 100 %. |
| NavView.BuildDots | script.js:88-101 | The dot loop builds one dot per index 1 .. `pages.length - 2`, in order. Dot `k` stands for index `k + 1`, is active exactly when that index is the current one, and targets the id at that index. |
| NavView.ActiveDotUnique | script.js:91-96 | At most one dot is active, and it is the current slide's. A dot is active exactly when the current slide is neither sentinel. |
| NavView.DotTargets | script.js:97-99 | With distinct ids, dot `k`'s target id is registered, `indexOf` finds it at index `k + 1`, and no dot targets a sentinel. |
| NavView.GlobalNavVisible | script.js:104-109 | On a registered index, the global bar is visible exactly on the indices 2 .. `pages.length - 2`, so it is hidden on the loading slide, the cover and the ending slide. |
| NavView.PageNumber | script.js:112-114 | From index 2 on, the number shown is one less than the index; the loading slide and the cover show 0. |
| NavView.GlobalNavOnContentSlides | script.js:104-109 | On the registry, the global navigation bar is shown exactly on the content slides `page1` .. `page11`. |
| NavView.PageNumberMatchesId | script.js:112-114 | The page number `max(0, currentPage - 1)` on a content slide is the number in its id. The loading slide and the cover show 0. |
| Input.SwipeMove | script.js:161-177 | A touch is a move exactly when its vertical travel exceeds 50 px and exceeds its horizontal travel. An upward swipe (end above start) means next; a downward one means previous. |
| Input.SwipeReversed | script.js:161-177 | A swipe in the opposite direction gives the opposite move. |
| Input.SmallOrHorizontalSwipeStays | script.js:165 | A swipe of at most 50 px vertically, or one no longer vertically than horizontally, is not a move. |
| Input.SwipeExamples | script.js:165-170 | `diffY = 60, diffX = 10` requests next. `diffY = 30` requests nothing, whatever `diffX` is. |
| Input.KeyMove | script.js:184-194 | A key requests a move exactly when it is one of the keys whose default the handler suppresses. |
| Input.IsArrowKey | script.js:184-189 | The keys whose default the handler suppresses are exactly ArrowDown, ArrowRight, ArrowUp and ArrowLeft (lines 184 and 189), all of them `Arrow…` key names. |
| Input.KeyMoveArrows | script.js:184-194 | ArrowDown and ArrowRight are exactly the keys meaning next, and ArrowUp and ArrowLeft exactly those meaning previous. Opposite arrows give opposite moves. |
| Input.RelativeTarget | script.js:168-175 | Next is taken exactly when the index is below the last one, and goes one slide forward. Previous is taken exactly when the index is above the cover, and goes one slide back. A non-gesture has no target. From a registered slide a move lands on a registered slide other than the loading one. |
| Input.RunStaysInRange | script.js:186-193 | After any series of swipes and arrow keys the index is on a registered slide. Once past the loading slide it never returns to it. |
| Input.RunForward | script.js:186-188 | Pressing next `k` times advances `k` slides, stopping at the ending slide. |
| Input.StepInverse | script.js:168-175 | Next then previous, and previous then next, return to the start wherever both moves are allowed. |
| Navigation.Navigator.constructor | script.js:2-4 | The script starts on the loading slide, unlocked, with no chrome drawn yet. |
| Navigation.Navigator.UpdateNavigation | script.js:81-115 | The chrome is redrawn for the current index: progress, dots, bar visibility and page number. |
| Navigation.Navigator.ShowPage | script.js:49-78 | While locked, nothing changes. Otherwise the lock is taken, the index becomes `indexOf(pageId)` (so the slide on screen is `pageId`), and the chrome is redrawn. The index stays registered and the chrome matches it. |
| Navigation.Navigator.ReleaseLock | script.js:75-77 | The transition timer frees the lock and changes nothing else. |
| Navigation.Navigator.MoveRelative | script.js:168-175 | A relative move, when unlocked and not refused, takes the guarded step, takes the lock and draws the chrome. Otherwise the index, the lock and the chrome are unchanged. |
| Navigation.Navigator.TouchStart | script.js:150-153 | The touch origin is recorded, even during a transition. |
| Navigation.Navigator.TouchEnd | script.js:155-178 | While locked, for a swipe that is not a gesture, or for a move the guard refuses, nothing changes. Otherwise the classified move is taken, the lock is held and the chrome is drawn. |
| Navigation.Navigator.KeyDown | script.js:181-195 | While unlocked, an arrow key suppresses the browser default and requests its move; a move the guard allows takes the lock and draws the chrome. While locked, for any other key, or for a refused arrow, the index, the lock and the chrome are unchanged. The default is kept while locked and for non-arrow keys. |
| Navigation.Navigator.CoverClick | script.js:120-123 | A click outside the music control, while unlocked, opens `page1` (index 2), takes the lock and draws the chrome. A click on the control, or any click while locked, changes nothing. |
| Navigation.Navigator.HomeClick | script.js:142-144 | The home button, while unlocked, opens the cover (index 1), takes the lock and draws the chrome. While locked, the index, the lock and the chrome are unchanged. |
| Navigation.Navigator.DotClick | script.js:97-99 | Dot `k`, while unlocked, opens index `k + 1`, takes the lock and draws the chrome. While locked, the index, the lock and the chrome are unchanged. |
| Navigation.ReadingSession | script.js:49-51 | The home jump takes the lock, so an arrow key during the transition is dropped without suppressing the default. After the release, the same key moves on to `page1`. |
| Forms.ValidateEmail | script.js:832-835 | An accepted address has no whitespace and exactly one `@`, at the position `indexOf` finds, with at least one character before it and three after it. |
| Forms.ValidateEmailMatchesPattern | script.js:832-835 | The direct decision accepts exactly the strings matching `^[^\s@]+@[^\s@]+\.[^\s@]+$`. It is therefore equivalent to: no whitespace; exactly one `@`, with text before it; a dot after it that is neither the first nor the last character of the domain. |
| Forms.ValidImpliesMatch | script.js:833 | Every address the direct decision accepts matches the pattern. |
| Forms.MatchImpliesValid | script.js:833 | Every string matching the pattern is accepted by the direct decision. |
| Forms.Subscribe | script.js:327-335 | The e-mail is accepted exactly when it matches the pattern. The field is cleared on acceptance and kept otherwise. |
| Forms.SubmitMessage | script.js:293-302 | The message is accepted exactly when it holds a non-whitespace character. The field is cleared on acceptance and kept otherwise. |
| Forms.EmailExamples | script.js:832-835 | `a@b.co` is accepted; `a@b` and `a.com` are refused. |
| Forms.MessageExamples | script.js:293-302 | A blank message is refused; `great job` is accepted and cleared. |
| Members.OrElse | script.js:673-675 | `field \|\| fallback` is never empty when the fallback is not. |
| Members.MajorName | script.js:666-667 | A missing or empty major shows `未知专业`, and the shown major never contains the grade mark `级`. |
| Members.MajorNameCases | script.js:666-667 | A missing or empty major shows `未知专业`. A major without `级` shows itself. Otherwise the card shows exactly the text between the first `级` and the next one (or the end). |
| Members.GradeOnlyMajorShowsEmpty | script.js:666-667 | A major given as a grade alone, `2023级`, shows as empty, not as the fallback. |
| Members.MemberCard | script.js:663-675 | The avatar is one character. A present name gives its first character and the name; a missing one gives `?` and `未知姓名`. The major is the parsed one. A present role is shown; a missing one falls back to `成员`. |
| Slider.NextSlide | script.js:771 | With at least one slide, next lands on a slide index. |
| Slider.PrevSlide | script.js:765 | With at least one slide, previous lands on a slide index. |
| Slider.PrevNextInverse | script.js:765-771 | Previous undoes next and next undoes previous. Next from the last slide is the first, and previous from the first is the last. |
| Slider.Advance | script.js:784-787 | With at least one slide, any number of next steps keeps the index a number, and a step lands it on a slide. With no slides, one step makes the index NaN and it stays NaN. |
| Slider.AdvanceFromFirst | script.js:770-773 | From the first slide, `k` presses of next land on slide `k mod count`. |
| Slider.DeptSlider.constructor | script.js:749 | The carousel starts on slide 0. |
| Slider.DeptSlider.Prev | script.js:764-767 | The previous button steps back with wrap-around, and keeps the index on a slide. |
| Slider.DeptSlider.Next | script.js:770-773 | The next button steps forward with wrap-around, and keeps the index on a slide. |
| Slider.DeptSlider.OneDotActive | script.js:758-760 | With as many dots as slides, exactly one dot carries `active`: the dot of the current slide. |
| Slider.DeptSlider.DotClick | script.js:776-781 | A dot click sets the index to that dot's position. |
| TeamLoader.Loader.constructor | script.js:552-553 | The loader starts with no cache, no load in flight and no request issued. |
| TeamLoader.Loader.Load | script.js:556-573 | A filled cache is returned with nothing changed. A load in flight is waited on with nothing changed. Only otherwise is one request issued and the flag set. |
| TeamLoader.Loader.FetchSettled | script.js:574-583 | Success and failure both clear the flag. Only success fills the cache. The result or failure is passed on to the caller. |
| TeamLoader.Loader.Poll | script.js:564-569 | A waiting caller resolves with the cache once it is filled, and keeps waiting otherwise. |
| TeamLoader.ConcurrentLoads | script.js:561-578 | Two overlapping calls issue one request. Once it succeeds, both receive the same roster. |
| TeamLoader.FailedLoadRetried | script.js:579-583 | After a failed request the waiting caller has not resolved, and the next call issues a fresh request. |

## Left out

- Audio playback and the music toggle (script.js:69-72, 126-139): media calls whose failures are only logged. `CoverClick` keeps only the check that the click was not on the music control.
- The charts, `simulateLoading` and the counter animation: a foreign charting library, `Math.random`, floating-point increments and interval/observer timing. The loading screen's hand-over to the cover is the explicit `showPage('cover')` call.
- Poster download, native sharing and the random quote: foreign calls and randomness.
- Alerts, `innerHTML`, element creation, class toggles on the slide elements, and the detail panels with their back buttons: DOM plumbing with no state of the navigation model.
- The unused constant `totalPages = 11`. The logic uses only the length of the slide list, which is 14.
- Real timer durations: the 500 ms release is the explicit call `ReleaseLock`, and the 100 ms poll is the explicit call `Poll`. The carousel's 5 s autoplay makes the same step as the next button, so `DeptSlider.Next` and `Advance` cover each tick; the timer itself is not modelled.
- Navigator.ShowPage: requires a registered id. For an unknown id the script sets the lock before `getElementById` returns null, so the lock would stay set for good. Every caller in the script passes a registered id.
- NavView.Progress: computed as an exact rational, without IEEE rounding or the conversion of the number to a CSS string.
- Touch coordinates are reals. Multi-touch data other than the first changed touch does not affect navigation.
- TeamLoader: `fetch`, `await`, JSON parsing, the promise-based waiter and the DOMContentLoaded preload are reduced to the flag and cache transitions. A JSON file that parses to a falsy value (such as `null`) is not modelled: the roster is always a map.
- Members: fields of the team file are strings or absent. Non-string JSON values are not modelled. The first character of a name is a Unicode code point, not a UTF-16 code unit, so a name starting outside the Basic Multilingual Plane is not modelled.
- `showDepartmentDetail` itself: the lookup `teamData[dept] || []`, the member count, the department colour and the error panel are view plumbing around `MemberCard`.
- The fallback `member.major || '未知专业'` in the else branch of script.js:667 cannot take effect. A missing major already splits into two pieces, whose second piece is `未知专业`. `MajorName` keeps the branch as written, and `MajorNameCases` shows which result each case produces.
