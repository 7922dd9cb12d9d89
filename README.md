# Frieren tribute page: verified model of its UI state machines

The page script `js/main.js` is almost all browser glue. Inside its DOM
controllers there are four small sequential state machines. This project
models them with the DOM stripped away and proves what each one promises.

- **Gallery navigator** (`galleryManager`, module `Gallery`). It keeps
  `currentImageIndex` into the fixed list of gallery images. `showModal`
  refuses a missing modal, a missing image and an image without `src`.
  Otherwise it opens the modal on that image, sets the index to the image's
  position, and updates the prev/next buttons. A prev or next click moves
  one step and stops at the ends.
- **Hero background rotator** (`heroBackgrounds`, module `HeroBackgrounds`).
  `init` builds one element per background, and each timer tick moves the
  "active" class one slot further, modulo the number of elements. The
  elements are inserted in front of the hero's first child, so document
  order is the reverse of list order (see Findings).
- **Music player flags** (`themePlayer`, module `Player`). This covers
  expand/collapse, the mouse-leave guard, mute toggling with `lastVolume`
  and its 70% fallback, the volume slider, the three-band volume icon and
  `pause`.
- **Spell-category selector** (`magicSystem.setupCategories`, module
  `MagicSystem`). A click makes exactly the clicked button active. It hides
  every panel and shows only the first panel whose `data-category` matches.

Each controller is a class whose fields its handlers update in place. Each
handler method's postcondition equates the new state with a pure function of
the old state. The lemmas next to those functions state the properties.

Volumes are integer percents 0..100, the value of the volume slider.
`audio.volume` v is modelled as 100·v, so the code's threshold 0.5 is 50 and
its fallback 0.7 is 70. The code never clamps a volume: the slider's range
bounds it, and the model assumes a range of 0..100 (`Player.SliderValue`).

## Model

| member | source | states |
|---|---|---|
| `Gallery.PositionOf` | js/main.js:132 | `indexOf` gives the clicked image's position in the list, and -1 exactly for an image not in the list |
| `Gallery.ImageAt` | js/main.js:189-199 | `images[k]` is a listed image exactly when k is in range; otherwise it is `undefined` |
| `Gallery.ShowRefused` | js/main.js:116-125 | a missing modal, a missing image or an image without `src` leaves the index, the modal and the buttons unchanged |
| `Gallery.ShowAccepted` | js/main.js:127-133 | an accepted image opens the modal with its non-empty `src`; the index becomes its position; the buttons agree with the index; a listed image is then displayed |
| `Gallery.PrevStep` | js/main.js:189-193 | from an in-range index, prev lowers the index by exactly 1 iff it is above 0 and the previous image is accepted; otherwise nothing changes; the index stays in range |
| `Gallery.NextStep` | js/main.js:195-199 | from an in-range index, next raises the index by exactly 1 iff it is below length-1 and the next image is accepted; otherwise nothing changes; the index stays in range |
| `Gallery.NothingPastTheEnds` | js/main.js:189-199 | at index 0 prev does nothing; at index length-1 next does nothing |
| `Gallery.HandlersKeepSynced` | js/main.js:139-149 | once prev-disabled ⇔ index = 0 and next-disabled ⇔ index = length-1 hold, showModal, prev, next and close keep them |
| `Gallery.SingleImageDisablesBoth` | js/main.js:139-149 | with a single image, showing it disables both buttons |
| `Gallery.NextThenPrev` | js/main.js:189-199 | when next moved, prev brings back exactly the view shown before |
| `Gallery.PrevThenNext` | js/main.js:189-199 | when prev moved, next brings back exactly the view shown before |
| `Gallery.GalleryManager.constructor` | js/main.js:107-109 | the index starts at 0 with the modal closed |
| `Gallery.GalleryManager.UpdateNavigationButtons` | js/main.js:139-149 | each existing button's disabled flag is set from the index; a missing button keeps its flag |
| `Gallery.GalleryManager.ShowModal` | js/main.js:111-137 | the fields after the call are those `ShowRefused`/`ShowAccepted` describe |
| `Gallery.GalleryManager.PrevClicked` | js/main.js:189-193 | the fields after the prev handler are those `PrevStep` describes |
| `Gallery.GalleryManager.NextClicked` | js/main.js:195-199 | the fields after the next handler are those `NextStep` describes |
| `Gallery.GalleryManager.CloseModal` | js/main.js:173-181 | the close button or a click on the backdrop closes the modal and changes nothing else |
| `HeroBackgrounds.Tick` | js/main.js:958-967 | a tick keeps the index in [0, n); it moves one step and wraps to 0 after the last element |
| `HeroBackgrounds.TickMovesMarker` | js/main.js:960-965 | a tick removes "active" from the current slot, adds it to the new slot, and leaves every other slot alone |
| `HeroBackgrounds.OneActiveKept` | js/main.js:958-967 | exactly one active element at the current index stays so after a tick |
| `HeroBackgrounds.TicksAdvanceIndex` | js/main.js:963 | within one cycle, k ticks move the index k steps round the cycle |
| `HeroBackgrounds.FullCycleReturns` | js/main.js:963 | after n ticks the index is back where it started |
| `HeroBackgrounds.AsWrittenFirstCycle` | js/main.js:941-967 | with the set-up as written, after k ticks of the first cycle (0 < k < n) the active slots are exactly k and n-1: two slots for k < n-1, the single slot n-1 at k = n-1 |
| `HeroBackgrounds.AsWrittenOneActiveAtLastSlot` | js/main.js:941-967 | with the set-up as written, at tick n-1 the marker reaches the stray last slot and only that slot is active |
| `HeroBackgrounds.AsWrittenHealsAfterOneCycle` | js/main.js:941-967 | with the set-up as written, after n ticks only slot 0 is active and the index is 0 |
| `HeroBackgrounds.AsWrittenTwoActive` | js/main.js:921-967 | with the page's 11 backgrounds, one tick in, slots 1 and 10 are both active |
| `HeroBackgrounds.InOrderAlwaysOneActive` | js/main.js:958-967 | with the corrected set-up, after any number of ticks exactly one element is active, the one at the current index |
| `HeroBackgrounds.HeroRotator.Init` | js/main.js:937-951 | `init` as written: element k shows background n-1-k, only the last element is active, and the index is 0 |
| `HeroBackgrounds.HeroRotator.InitInOrder` | js/main.js:937-951 | the corrected set-up: document order equals list order, and only element 0 is active |
| `HeroBackgrounds.HeroRotator.OnInterval` | js/main.js:958-967 | the interval callback changes the flags and the index as `Tick` does |
| `Player.IconFor` | js/main.js:802-810 | 🔊 iff volume > 50%, 🔉 iff 0 < volume ≤ 50%, 🔇 iff volume ≤ 0 |
| `Player.Restored` | js/main.js:795-798 | the saved volume when it is set and non-zero, otherwise 70% |
| `Player.StartConsistent` | js/main.js:311-313 | `init` with `setInitialVolume` starts collapsed and unmuted, with the slider's volume, in a consistent state |
| `Player.StepKeepsConsistent` | js/main.js:423-449 | every modelled handler keeps the flags consistent: isExpanded = "expanded" class, isMuted = `audio.muted`, muted ⇒ slider 0, unmuted ⇒ volume = slider, icon follows slider |
| `Player.RunKeepsConsistent` | js/main.js:423-453 | any sequence of these events keeps the player consistent |
| `Player.ExpandCollapseIdempotent` | js/main.js:773-785 | expand and collapse are idempotent and set the flag and the class together |
| `Player.MouseLeaveGuard` | js/main.js:427-430 | mouse-leave leaves a playing player untouched and collapses a paused one |
| `Player.ToggleMuteEffect` | js/main.js:787-800 | toggling flips isMuted and sets `audio.muted` to match; muting saves the volume, zeroes the slider and keeps `audio.volume`; unmuting restores the saved volume or 70% |
| `Player.MuteRoundTrip` | js/main.js:787-800 | mute then unmute from a non-zero volume gives back the same player, apart from `lastVolume` |
| `Player.MuteRoundTripFromSilence` | js/main.js:787-800 | mute then unmute from volume 0 lands on 70% with the loud icon, unmuted |
| `Player.SliderEffect` | js/main.js:439-449 | the slider sets the volume and the icon; a value above 0 clears both mute flags; at 0 they are left unchanged |
| `Player.ThemePlayer.Init` | js/main.js:288-315 | the fields after `init` are the consistent start state |
| `Player.ThemePlayer.Expand` | js/main.js:773-778 | adds the class and sets the flag unless already expanded |
| `Player.ThemePlayer.Collapse` | js/main.js:780-785 | removes the class and clears the flag unless already collapsed |
| `Player.ThemePlayer.OnMouseLeave` | js/main.js:427-430 | the fields after mouse-leave are those `MouseLeaveGuard` describes |
| `Player.ThemePlayer.UpdateVolumeIcon` | js/main.js:802-810 | only the volume icon changes, to the band of the given volume |
| `Player.ThemePlayer.ToggleMute` | js/main.js:787-800 | the fields after the toggle are those `ToggleMuteEffect` describes |
| `Player.ThemePlayer.OnVolumeInput` | js/main.js:439-449 | the fields after slider input are those `SliderEffect` describes |
| `Player.ThemePlayer.Pause` | js/main.js:766-771 | pausing sets `paused` and clears the "playing" and "muted-playing" classes; the play icon returns to ♫ |
| `MagicSystem.FirstMatch` | js/main.js:1100-1103 | the panel found is the first in document order whose category matches, or -1 exactly when none matches |
| `MagicSystem.ClickedButtonOnly` | js/main.js:1088-1091 | after a click the set of active buttons is exactly {clicked} |
| `MagicSystem.MatchingPanelOnly` | js/main.js:1093-1108 | after a click every panel is hidden and inactive except at most one, which is shown and active; that one is the first whose category matches; none is active iff no panel matches |
| `MagicSystem.LastClickWins` | js/main.js:1086-1110 | the state after a click depends only on the last button clicked, so repeating a click changes nothing |
| `MagicSystem.CategorySelector.constructor` | js/main.js:1082-1084 | the selector starts from the page's own flags |
| `MagicSystem.CategorySelector.Click` | js/main.js:1086-1110 | the two loops and the lookup leave the button flags, panel flags and displays that `ClickResult` gives |

## Left out

- Scroll reveal (both `initializeScrollEffects` definitions; the second replaces the first): IntersectionObserver callbacks only.
- The timers themselves (`setInterval`, the staggered `setTimeout` animations, `animateSpells`, banner auto-dismiss): each tick is modelled as a plain method call.
- `play`, both `attemptAutoplay` definitions, `showPlayPrompt`, `showAutoplayNotification`, the `canplaythrough` retry and the first-click unmute handler: asynchronous browser media policy. These paths set `audio.muted` without `isMuted` and toggle "playing" from a second click handler. So `Player.Consistent` holds only over the modelled handlers. No invariant links "playing" to `audio.paused`.
- The audio `error` handler (play icon ❌) and the progress bar (a float division that is NaN when the duration is 0).
- Particle effects, video embeds, style injection, `diagnosePlayerIssues`, `handleGlobalError`, `adjustPosition`, the floating-player scroll offset, the mobile menu and the back-to-top button: DOM and I/O plumbing with no state worth verifying.
- `CONFIG`: hostname-dependent constants that the modelled code does not read.
- The wiring in `galleryManager.init`: listeners go only on images with a `src`, and nothing is wired when the gallery is empty. The model lets any handler run on any page.
- Gallery.GalleryManager.constructor: the buttons' initial disabled flags come from the HTML, which is not part of this model; they start enabled here.
- Player.ThemePlayer.Init: models `init` up to `setInitialVolume` (lines 288-315). The real `init` then calls `attemptAutoplay` (line 317); its effective definition sets `audio.muted` to true at line 634 without setting `isMuted`. So from page load until the play promise is rejected (line 648) or the first document click (lines 469-470) unmutes, the page is not `Player.Consistent`; the model's start state is the state before autoplay.
- MagicSystem.FirstMatch: categories are assumed free of `"`, `\` and line breaks, as the page's fixed markup is. The selector at lines 1100-1102 interpolates the category unescaped, so such a category would make `querySelector` throw after both loops have already cleared every panel, or match a different category; that path is not modelled.
- HeroBackgrounds.TicksAdvanceIndex: stated for up to one full cycle (k ≤ n) in closed form rather than for every k with `%`, to keep the proof linear; `FullCycleReturns` and `Tick` cover the cycle.
- A hero section that is missing (`init` returns early), and other `.hero-background` elements already in the HTML: the rotator assumes its own elements are the only ones.
- `setupSpellEffects` and the spell glow and activation effects: Web Animations and timers.

## Findings

| source | as written | input that shows it | evidently intended | confidence | as-written member | corrected member |
|---|---|---|---|---|---|---|
| js/main.js:946-947 | each background element is inserted before the hero's first child. Document order is therefore reversed, and the element marked active (list index 0) ends up at the last position of `bgElements`, while `currentIndex` starts at 0. | the page's 11 backgrounds, one tick: "active" is on slots 1 and 10 at once; two slots stay active through tick 9, and from tick 10 on exactly one is | exactly one active background at every moment, starting from slot 0 and rotating in list order (append the elements, or mark the one that ends up first) | medium; not executed | `HeroBackgrounds.AsWrittenTwoActive` | `HeroBackgrounds.InOrderAlwaysOneActive` |
