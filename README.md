# Tprom site script — a Dafny model of its decision logic

The Tprom marketing site runs one browser script, `public/js/script.js`. Most
of it wires DOM events to network calls and animations. This project models
the deterministic parts of that script and proves properties about them:

- **Lead capture** (`relay.dfy`, module `Relay`). The newsletter and contact
  forms build a submission record. `Render` is the chat message built from a
  record. It has a fixed header, then one labelled line for each of `nome`,
  `email`, `telefone`, `mensagem` and `tipo` whose value is truthy, then a
  blank line and a date line. A second description says which fields are shown
  (`Present`) and which lines they give (`Lines`). `RenderLayout` proves that
  the step-by-step template equals header + lines + footer.
- **Page state** (`page.dfy`, module `Page`). Class `Page` holds:
  - the `data-theme` attribute, the stored theme preference and the theme icon;
  - the mobile menu's `active` flag and its icon;
  - the header's `scrolled` class;
  - three arrays for the portfolio items, the filter buttons and the nav links.

  Each handler is a method whose postcondition ties the new state to a pure
  function of the old state: `Toggled`, `SavedTheme`, `ThemeIcon`, `MenuIcon`,
  `Filtered`, `Selected`, `Scrolled` and `AfterScroll`. Lemmas then prove what
  those functions promise.
- `optional.dfy` (module `Optional`) holds the `Option` type. It stands for a
  JavaScript `undefined` property or a `null` from `getAttribute`/`getItem`.

Modelling choices:

- A record field is truthy when it is present and non-empty.
- Clock readings are parameters: the record's `data`/`timestamp` and the
  message's own date text. The message date is a second clock reading taken
  when the message is built, not the record's `timestamp`.
- Scroll offsets are `real`, because `pageYOffset` may be fractional. Section
  offsets are integers.
- The contact record's `tipo` is `'Contato'` (public/js/script.js:200).
- Field values are appended to the message without escaping. A value that
  holds `"\n"` spans several text lines, and those lines can repeat another
  field's label. `Lines(rec)` is therefore the list of labelled entries, one per
  shown field, and not the message's `\n`-separated lines. `RenderLayout` is
  exact about the text: the message is the header, the entries concatenated,
  then the footer.
- `localStorage` access can throw, for example when storage is blocked or
  full. `InitTheme` and `ToggleTheme` take a flag that says whether the access
  succeeds, and they model what the script leaves behind when it fails.

## Model

The table lists the members that carry a contract. The rules they are stated
about have no contract of their own and are defined as the script computes
them:
- `Relay.Render`: the header, the five conditional appends in template order, then the footer (public/js/script.js:115-123).
- `Page.SavedTheme` (:13), `Page.Toggled` (:20), `Page.ThemeIcon` (:29) and `Page.MenuIcon` (:36).
- `Page.Shows` and `Page.Filtered` (:50).
- `Page.Selected` (:307-309).
- `Page.Scrolled` (:229).
- `Page.LastMatch`, `Page.Marked` and `Page.AfterScroll` (:265-280).

All line numbers refer to public/js/script.js.

| member | source | states |
|---|---|---|
| `Relay.NewsletterRecord` | public/js/script.js:158-163 | The newsletter record holds the e-mail input's value and `tipo = "Newsletter"`. No other message field is truthy, and the two clock strings are carried over unchanged. |
| `Relay.ContactRecord` | public/js/script.js:195-203 | Each of `nome`, `email`, `telefone`, `mensagem` is the input at that field's position (0–3), or `""` when the form has fewer inputs. `tipo` is `"Contato"`. |
| `Relay.PresentIff` | public/js/script.js:117-121 | A field is shown in the message exactly when its value is truthy (present and non-empty). |
| `Relay.PresentOrdered` | public/js/script.js:117-121 | The shown fields always keep the order nome, email, telefone, mensagem, tipo. |
| `Relay.LineInjective` | public/js/script.js:117-121 | The five labels start with distinct emoji. A labelled line therefore determines both its field and its value. |
| `Relay.LineIff` | public/js/script.js:117-121 | `Lines(rec)`, the list of labelled entries with one per shown field, contains the entry for field `f` with value `v` exactly when the record's `f` is the non-empty string `v` (both directions). |
| `Relay.RenderLayout` | public/js/script.js:115-123 | The message built step by step equals the header, then the concatenated entries of `Lines(rec)` in field order, then the blank line and the date line. |
| `Relay.RenderFrame` | public/js/script.js:115-123 | Every message starts with the fixed header and ends with the blank line followed by the `Data:` line. |
| `Relay.NewsletterLines` | public/js/script.js:158-163 | For a newsletter record, `Lines(rec)` is exactly the e-mail entry (when the e-mail is non-empty) followed by the type entry. There is no name, phone or message entry. |
| `Relay.ContactLine` | public/js/script.js:195-200 | For a contact record, `Lines(rec)` always contains the `Contato` type entry. It contains the entry for each other field exactly when the input at that position exists and is non-empty, so an empty or missing input gives no entry. |
| `Page.SavedThemeDefault` | public/js/script.js:13 | Initialisation applies the stored theme when it is non-empty, and `"light"` when nothing or `""` is stored. The applied theme is never empty. |
| `Page.ToggleSwaps` | public/js/script.js:20 | A toggle gives `"light"` exactly when the current theme is `"dark"`. Any other value, or no value, gives `"dark"`. |
| `Page.ToggleTwice` | public/js/script.js:19-23 | Toggling twice from `"light"` or `"dark"` restores the original theme. |
| `Page.ReloadKeepsToggledTheme` | public/js/script.js:12-25 | The stored toggled theme is what the next initialisation applies, so the preference survives a reload. |
| `Page.ThemeIconIff` | public/js/script.js:29 | The icon is `fas fa-sun` exactly for `"dark"` and `fas fa-moon` otherwise. |
| `Page.FilteredIff` | public/js/script.js:50 | After filtering, an item is displayed exactly when the category is `"all"` or equals the item's `data-category`. Item categories are unchanged. |
| `Page.FilteredIndependent` | public/js/script.js:47-63 | An item's outcome depends only on that item, not on its neighbours or its position. |
| `Page.FilterAllShowsEverything` | public/js/script.js:50 | Filtering by `"all"` displays every item. |
| `Page.FilterIdempotent` | public/js/script.js:46-63 | Filtering twice by the same category gives the same items as filtering once. |
| `Page.ExactlyClickedActive` | public/js/script.js:307-309 | After a click, the set of active filter buttons is exactly the clicked one. |
| `Page.ScrolledIsStrict` | public/js/script.js:229-233 | The header is scrolled exactly when the offset is strictly above 100. At exactly 100 it is not scrolled. |
| `Page.LastMatchNone` | public/js/script.js:267-280 | No section matches exactly when no section satisfies top ≤ pos < top + height. |
| `Page.LastMatchIsLast` | public/js/script.js:267-280 | If section k contains the position and no later section does, the match is section k's id. The last containing section wins. |
| `Page.LastMatchSome` | public/js/script.js:267-280 | A match is always the id of a containing section with no later containing section. |
| `Page.MarkedTwice` | public/js/script.js:273-278 | Re-marking the links for a later section erases every effect of an earlier marking. |
| `Page.AfterScrollActive` | public/js/script.js:265-279 | After a scroll event at offset y, links keep their hrefs. If the last section containing y + 100 has id `s`, a link is active exactly when its href is `"#" + s`. If no section contains y + 100, the links are unchanged. |
| `Page.Page.constructor` | public/js/script.js:2-9 | A loaded page holds the stored preference, no theme attribute, a closed menu and an unscrolled header. Both icons agree with that state. |
| `Page.Page.UpdateThemeIcon` | public/js/script.js:27-30 | The theme icon becomes the icon of the given theme, and nothing else changes. |
| `Page.Page.InitTheme` | public/js/script.js:12-16 | When storage can be read, the attribute becomes the stored theme or `"light"` and the icon agrees with it. Storage is only read. When `getItem` throws, nothing changes. |
| `Page.Page.ToggleTheme` | public/js/script.js:18-25 | The attribute always becomes the toggled value. When storage can be written, storage receives that same value and the icon agrees. When `setItem` throws, storage and the icon keep their old values. |
| `Page.Page.ToggleMobileNav` | public/js/script.js:33-37 | The menu's `active` flag flips. The icon is `fas fa-times` exactly when the menu is then active. |
| `Page.Page.CloseMobileNav` | public/js/script.js:39-43 | The menu ends inactive with `fas fa-bars` whatever its earlier state, so closing is idempotent. |
| `Page.Page.FilterPortfolio` | public/js/script.js:46-64 | The items array becomes `Filtered` of its old contents, one item at a time. |
| `Page.Page.ClickFilterButton` | public/js/script.js:304-313 | The buttons become `Selected(old, k)`, so only the clicked one is active. The items are filtered by the clicked button's `data-filter`. |
| `Page.Page.HandleScroll` | public/js/script.js:225-234 | The header has `scrolled` exactly when the offset is above 100. |
| `Page.Page.UpdateActiveNavLink` | public/js/script.js:263-281 | The loop over sections, with its inner loop over links, leaves the links equal to `AfterScroll` of their old state. |

## Left out

- `sendToGoogleSheets` (the form-encoded POST and its logging) is network I/O whose only result is whether `fetch` threw. It is not modelled.
- Opening the chat link (`window.open`, the `location.href` fallback, `alert`) and the plan-card button are browser side effects and are not modelled.
- The chat URL (`https://wa.me/…?text=` + `encodeURIComponent(message)`) is not modelled, because the percent-encoding is a library routine outside this model. The model stops at the message text.
- `new Date()`, `toISOString` and `toLocaleString('pt-BR')` depend on the clock and the locale. They are parameters.
- The submit buttons' "Enviando…" text, the disabling and the form reset after 1000 ms are timer-driven UI and are not modelled. So is the 500 ms delay before the contact message is relayed.
- Page.Page.FilterPortfolio: it models the settled display state after the 10 ms and 300 ms timers. It does not model the opacity/transform animation, or the race where a 300 ms hide timer from an earlier click hides an item that a later click showed.
- `debounce`, the IntersectionObserver scroll animations, lazy image loading and `smoothScroll`'s layout geometry are timing and browser-layout behaviour. They are not modelled.
- Event-listener registration, `console` logging, and the closing of the menu on outside clicks and on Escape are not modelled. The last two only call `CloseMobileNav`, which is modelled.
- Page.Page.constructor: the initial state comes from the HTML markup, which is not part of this model. It is assumed to have no `data-theme` attribute, an inactive menu, a header without `scrolled`, and icon classes that agree with that state.
- A DOM lookup that finds no element makes the script throw (for example a form without an e-mail input). The model assumes those elements exist.
