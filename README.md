# Qredin landing page: verified model of its interactive behaviour

The Qredin site is a marketing page with a static dashboard mockup. It has no
backend. This project models and proves the three pieces of it that have state
or sequencing logic:

- **Typewriter playback** in the developer section (`typewriter.dfy`, module
  `Typewriter`). One snippet per language (Python, TypeScript, Go) is revealed
  one character per interval tick, at an interval of max(10, floor(2000 / length))
  ms. Choosing another language cancels the running interval, empties the
  display and starts again. The copy button hands the full snippet to the
  clipboard and shows a "copied" acknowledgement, which a 1500 ms timeout
  clears. The class `DeveloperSection` holds the component's state. Its
  methods are the events: mount, tick, select, copy, timeout and unmount.
  Each method is specified against the pure playback functions `Start`, `Step`
  and `Run`, and the lemmas about those functions carry the proofs.
- **Crossfade timeline** of the identity-lifecycle section in `App`
  (`crossfade.dfy`, module `App`). The card refs are filtered, and the cards
  get their initial styles: all hidden, then card 0 shown. A loop then builds
  the timeline. For each adjacent pair there is a hold of 0.5, then card i
  fades out while card i+1 fades in, both starting at the label `swap-i`. A
  trailing hold of 0.5 ends the timeline. Times are integers in half-units.
  `ApplyAll` plays completed segments in order over the card styles. The
  module also covers the ref callbacks that fill `cardsRef`, the cards'
  z-index and the header's `isScrolled` flag.
- **Dashboard tab selection** (`dashboard.dfy`, module `Dashboard`): the
  `activeTab` string; the `renderContent` switch with its fallback to the
  overview; the eight sidebar entries and their highlight test; and the click
  that selects an entry.

The typewriter's `DeveloperSection` class takes its table of snippets as a
constructor argument. `Mount` builds it over `Snippet`, the table from the
source, copied character for character. This keeps the 170–200-character
string literals out of the class's proof obligations.

Two details of the layout effect shape the timeline model:

- The effect returns early only when no card is present. With one card it
  still presets the styles and builds a timeline holding only the trailing
  hold. `BuildCrossfade` does the same.
- The timeline has 3(N-1)+1 segments for N cards: a hold, a fade-out and a
  fade-in per adjacent pair, plus the trailing hold. Both tweens of a pair
  share one start offset. `Schedule` and `ScheduleLayout` state this count.

## Model

| member | source | states |
|---|---|---|
| `Typewriter.Snippet` | src/components/DeveloperSection.tsx:5-34 | The three samples, character for character. None is empty, so every interval is defined; `PythonInterval`, `TypeScriptInterval` and `GoInterval` give their lengths and periods. |
| `Typewriter.TickInterval` | src/components/DeveloperSection.tsx:49 | The interval is at least 10 ms. When 10·len ≤ 2000 it is floor(2000/len), the largest period whose len ticks fit in 2000 ms. Otherwise it is exactly 10 ms. |
| `Typewriter.PythonInterval` | src/components/DeveloperSection.tsx:6-13 | The Python snippet has 172 characters, so its interval is 11 ms. |
| `Typewriter.TypeScriptInterval` | src/components/DeveloperSection.tsx:14-23 | The TypeScript snippet has 198 characters, so its interval is 10 ms. |
| `Typewriter.GoInterval` | src/components/DeveloperSection.tsx:24-33 | The Go snippet has 169 characters, so its interval is 11 ms. |
| `Typewriter.Substring` | src/components/DeveloperSection.tsx:53 | `substring(0, n)` gives a prefix of its argument, of length min(n, length). |
| `Typewriter.Start` | src/components/DeveloperSection.tsx:45-48 | The effect's start: the display is empty, the counter is 0 and the interval is live. For a non-empty snippet this playback is consistent, which `Step` then preserves. |
| `Typewriter.Step` | src/components/DeveloperSection.tsx:51-59 | One tick keeps a consistent playback consistent, keeps the display a prefix of the snippet and grows it by exactly one character while the interval is live. The interval stays live iff characters remain after the new one. A tick after the interval is cleared changes nothing. |
| `Typewriter.Run` | src/components/DeveloperSection.tsx:45-59 | The playback after k ticks is over the same snippet, is consistent, and shows at most k characters. `RunTrace`, `CompletesAfterLengthTicks`, `CompletedIsFinal` and `ShownGrows` state what it shows. |
| `Typewriter.RunTrace` | src/components/DeveloperSection.tsx:45-59 | After k < L ticks the display is exactly the first k characters and the interval is still live. From tick L on, the display is the full snippet, the interval is cleared and the counter stays at L-1. |
| `Typewriter.CompletesAfterLengthTicks` | src/components/DeveloperSection.tsx:52-58 | For L ≥ 1, ticks 0..L-1 leave the interval live and tick L shows the full text and clears it: exactly L ticks. |
| `Typewriter.CompletedIsFinal` | src/components/DeveloperSection.tsx:56-57 | Once completed, no number of further ticks changes the playback. |
| `Typewriter.ShownGrows` | src/components/DeveloperSection.tsx:52-57 | The display only grows: each earlier display is a prefix of every later one, and of the snippet. |
| `Typewriter.DeveloperSection.constructor` | src/components/DeveloperSection.tsx:39-51 | On mount TypeScript is selected, the display is empty, the counter is 0, the interval is armed at the snippet's period and nothing is acknowledged as copied. |
| `Typewriter.DeveloperSection.Tick` | src/components/DeveloperSection.tsx:51-59 | A firing of the interval moves the component's playback state by `Step` and keeps the class invariant. |
| `Typewriter.DeveloperSection.SelectLanguage` | src/components/DeveloperSection.tsx:45-62 | Selecting the current language changes nothing. Selecting another language cancels the old interval, resets the display to '' and the counter to 0, and arms one new interval at the new snippet's period. |
| `Typewriter.DeveloperSection.HandleCopy` | src/components/DeveloperSection.tsx:64-67 | The text written is the full snippet, which extends whatever is displayed. `copied` becomes true, one reset timeout is scheduled with a delay of 1500 ms, and playback is untouched. |
| `Typewriter.DeveloperSection.CopyTimeoutFires` | src/components/DeveloperSection.tsx:67 | A scheduled reset timeout sets `copied` to false and leaves playback untouched. |
| `Typewriter.DeveloperSection.Unmount` | src/components/DeveloperSection.tsx:61 | The effect cleanup leaves no live interval. |
| `Typewriter.Mount` | src/components/DeveloperSection.tsx:38-51 | The section as the page mounts it: over the real snippets, TypeScript selected, empty display, 10 ms interval. |
| `App.Header.constructor` | src/App.tsx:27 | The header starts unscrolled. |
| `App.Header.OnScroll` | src/App.tsx:30-32 | After a scroll event, `isScrolled` holds iff scrollY > 20. |
| `App.CardRefs.constructor` | src/App.tsx:26 | The ref array starts empty. |
| `App.CardRefs.Assign` | src/App.tsx:377 | A non-null element is stored in its slot, the array grows with holes where needed, and other slots keep their contents. A null element changes nothing. |
| `App.CardRefs.RenderSteps` | src/App.tsx:372-377 | After the steps render, slot k holds step k's element for every step. |
| `App.ZIndex` | src/App.tsx:379 | Every card's z-index lies between 1 and the number of steps. |
| `App.ZIndexDecreases` | src/App.tsx:379 | z-indices strictly decrease with the index, so card 0 is on top. |
| `App.Present` | src/App.tsx:39 | Filtering never lengthens the list. It keeps every slot when none is a hole and returns nothing when all are holes. |
| `App.PresentAppend` | src/App.tsx:39 | Filtering distributes over concatenation, so the order of the kept elements is preserved. |
| `App.PresentOfFull` | src/App.tsx:39 | A list without holes filters to exactly its elements. |
| `App.RenderedCardsInOrder` | src/App.tsx:372-377 | Refs filled slot for slot filter to the step elements in step order. |
| `App.InitialStyles` | src/App.tsx:53-55 | After the two presets there is one style per card, only card 0 is visible (opacity 1), and every preset couples visibility with interactivity. `StylesAfterSwaps` at k = 0 shows it is the at-rest state before any swap. |
| `App.BuildCrossfade` | src/App.tsx:37-87 | No present card means no scene: no timeline and no style is set. Otherwise the result has the filtered cards, the preset styles and exactly the schedule `Schedule(n)`. |
| `App.SwapBlock` | src/App.tsx:58-80 | The three segments appended for card i with a successor: a hold starting at 1.5·i, then card i to the exited style and card i+1 to the shown style, both at label `swap-i` and both starting where the hold ends. The block ends at 1.5·(i+1). |
| `App.Swaps` | src/App.tsx:57-82 | The first k swap blocks contribute 3k segments; `SwapsAt` locates each one and `SwapsDuration` gives their length in time. |
| `App.Schedule` | src/App.tsx:57-85 | The timeline for N ≥ 1 cards has 3(N-1)+1 segments and ends with the 0.5 hold at 1.5·(N-1). `ScheduleLayout`, `ScheduleSegments` and `ScheduleDuration` state its layout, its segments and its duration. |
| `App.SwapsAt` | src/App.tsx:57-82 | Segment j of the swap blocks is entry j mod 3 of block j div 3. |
| `App.ScheduleLayout` | src/App.tsx:57-85 | For N cards there are 3(N-1)+1 segments. Pair i has a hold of 0.5 at 1.5·i, then card i fades out and card i+1 fades in, both at the label `swap-i` where the hold ends. The trailing hold sits at 1.5·(N-1). |
| `App.ScheduleSegments` | src/App.tsx:53-85 | Every hold lasts 0.5 and every tween lasts 1. Each tween targets a valid card and a style where opacity 1 comes with pointer events on and opacity 0 with them off. Segments are listed in non-decreasing start order, so swaps happen in increasing i. |
| `App.Duration` | src/App.tsx:57-85 | The timeline's duration bounds the end of every segment. |
| `App.DurationAttained` | src/App.tsx:57-85 | Some segment ends exactly at the duration. |
| `App.SwapsDuration` | src/App.tsx:57-82 | k hold-and-swap blocks last 1.5·k. |
| `App.ScheduleDuration` | src/App.tsx:57-85 | The whole timeline lasts 1.5·(N-1)+0.5. |
| `App.StylesAfterSwaps` | src/App.tsx:53-82 | After k swaps, cards before k have exited, card k is the only visible card and later cards are still hidden. Every style is coupled. |
| `App.EndStyles` | src/App.tsx:53-85 | After the whole timeline only the last card is visible. Every earlier card ends at opacity 0, y -50. |
| `Dashboard.RenderContent` | src/components/DashboardPreview/index.tsx:15-36 | The rendered tab is either the one whose case label is `activeTab` or the overview fallback. `DispatchTotal` and `DispatchRoundTrip` say which. |
| `Dashboard.DispatchRoundTrip` | src/components/DashboardPreview/index.tsx:15-36 | Each tab has its own case: dispatching on a tab's case label renders that tab. |
| `Dashboard.DispatchTotal` | src/components/DashboardPreview/index.tsx:15-36 | Dispatch is total and picks one body. A sidebar id renders the tab whose case label it is, and any other string renders the overview. |
| `Dashboard.NavItemsMatchCases` | src/components/DashboardPreview/Sidebar.tsx:9-18 | There are eight entries. Each entry's id is the case label of its tab and dispatches to it, and every tab is reached by some entry. |
| `Dashboard.NavIdsDistinct` | src/components/DashboardPreview/Sidebar.tsx:9-18 | The eight ids are pairwise distinct, and so are the tabs they lead to. |
| `Dashboard.ActiveItems` | src/components/DashboardPreview/Sidebar.tsx:33-34 | The entries highlighted by the test `activeTab === item.id`: at most one, and exactly one, the entry with that id, iff `activeTab` is a sidebar id. |
| `Dashboard.DashboardPreview.constructor` | src/components/DashboardPreview/index.tsx:13 | The initial tab is 'overview', which renders the overview. |
| `Dashboard.DashboardPreview.SetActiveTab` | src/components/DashboardPreview/index.tsx:40 | The setter handed to the sidebar, the only mutator of `activeTab`, sets it to its argument. |
| `Dashboard.DashboardPreview.ClickNavItem` | src/components/DashboardPreview/Sidebar.tsx:38 | Clicking entry k sets `activeTab` to its id. Entry k becomes the only highlighted entry and its tab is rendered. |

## Left out

- GSAP and ScrollTrigger internals: pinning, the scroll-to-progress scrub mapping, `power2.inOut` easing, the 3000-pixel scroll distance and `ctx.revert()` cleanup. These are a foreign library with floating-point tweening. The model keeps the segment list and the end states of the tweens, so the styles in the middle of a swap are not modelled.
- Card styles are returned as a sequence indexed by position in the filtered list, instead of being written into DOM elements. The label `swap-<index>` is represented by its index.
- Wall-clock time: `setInterval` and `setTimeout` are discrete events (`Tick`, `CopyTimeoutFires`). The interval's period and the copy reset's 1500 ms delay are recorded, but no elapsed time is modelled.
- The clipboard API: `HandleCopy` returns the text passed to `writeText`. The asynchronous write and its possible failure are not modelled.
- The copy-reset timeout is not cancelled on unmount in the source, and in the model too pending resets survive `Unmount`. React's behaviour when state is updated on an unmounted component is not modelled.
- The empty snippet: floor(2000/0) never occurs because all three snippets are non-empty (the contract of `Snippet`). The class therefore requires non-empty snippets.
- React scheduling: a language change is modelled as its effect running at once (cleanup, reset, new interval). The intermediate render with the old display is not modelled.
- `scrollY` is a real number, and `OnScroll` carries the test `scrollY > 20` of src/App.tsx:31 itself. The browser's scroll events themselves are not modelled.
- HeroBackground's mouse parallax: float normalisation and spring physics driven by event listeners.
- Rendering: JSX, CSS classes, motion/react entrance animations, the marquee and the light sweep.
- The static mock tabs (Overview, Agents, Nodes, Trust Chain, Federation, Audit Log, Revocations, Settings) contain only hardcoded rows. The model represents each by its `Tab` constructor.
