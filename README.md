# Deck state classes of the talk slide script

The slide script of this Jekyll talk template (`Talk` in `app/javascripts/app.js`)
runs on top of the reveal.js slideshow framework. Its one piece of logic is
`setGlobalStateClasses`. It runs when the deck becomes ready and on every slide
change. It gives the slide container (`.slides`) a "state" that mirrors the layout
of the present slide:

1. read the container's `class` attribute and split it on single spaces;
2. keep the present slide's classes that start with `slide--`;
3. drop every container class that starts with `layout--`;
4. append each kept slide class with `slide--` rewritten to `layout--`, in the slide's order;
5. write the result back, joined with single spaces.

The project models this in three modules:

- `ClassStrings` (`class_strings.dfy`) holds the string operations the script calls.
  `StartsWith` is lodash `_.startsWith`. `ReplaceFirst` is
  `String.prototype.replace` with a string pattern and a replacement containing no
  `$`, so only the first occurrence is replaced. `Split` is `split(' ')`: it always
  gives at least one piece, and consecutive spaces give empty pieces. `Join` is `join(' ')`. The module proves
  both round trips.
- `Lodash` (`lodash.dfy`) holds `_.filter` and `_.map` as `Filter` and `Map`.
  `_.reject` is `Filter` with the negated test, and `_.concat` is `+` on sequences.
- `Talk` (`talk.dfy`) holds the synchroniser. `Sync` is the pure token computation
  (app.js:57-67). `Deck` is a class whose mutable field `classAttr` is the
  container's `class` attribute. Its method `SetGlobalStateClasses` overwrites that
  field with the synchronised attribute (app.js:56, 68). The lemmas state what the
  synchronisation guarantees.

The present slide's classes are a parameter of `SetGlobalStateClasses`. In the
source they are read from the DOM with `document.querySelector('section.present')`.

Behaviour worth noting:

- The code does not de-duplicate: `SyncKeepsDuplicates` shows `slides slides`
  staying as it is. Layout classes are the exception. `SyncLayoutClassCount` shows
  that a `layout--X` occurs exactly as often as `slide--X` occurs on the present
  slide. A DOM class list holds each class at most once, so that is exactly once.
- Only `layout--` classes are removed, so a `slide--X` class put on the container
  itself survives (`SyncOtherClassCount`).
- Idempotence holds for class lists (`SyncIdempotent`) and also for the class
  attribute itself (`SyncAttributeIdempotent`), even when the synchronisation
  leaves the attribute empty. That needs the slide's classes to contain no space,
  which holds for every DOM class list.

## Model

| member | source | states |
|---|---|---|
| `ClassStrings.StartsWith` | app/javascripts/app.js:57-63 | `_.startsWith(s, p)` holds exactly when `p` is no longer than `s` and equals the first `|p|` characters of `s` |
| `ClassStrings.ReplaceFirstAtFirstOccurrence` | app/javascripts/app.js:65 | when the first occurrence of the pattern is at offset `k`, `replace` gives the text before `k`, the replacement, then the text after that occurrence; nothing else changes |
| `ClassStrings.ReplaceFirstNoOccurrence` | app/javascripts/app.js:65 | a string in which the pattern does not occur is returned unchanged by `replace` |
| `ClassStrings.Split` | app/javascripts/app.js:56 | `split(' ')` always gives at least one piece, and no piece contains a space |
| `ClassStrings.JoinSplit` | app/javascripts/app.js:56-68 | joining the space-split pieces of any string with single spaces gives that string back |
| `ClassStrings.SplitJoin` | app/javascripts/app.js:56-68 | splitting a non-empty list of space-free tokens, joined with single spaces, gives the list back |
| `Lodash.Filter` | app/javascripts/app.js:57-63 | `_.filter` / `_.reject` give a list no longer than the input in which every element passes the test |
| `Lodash.FilterCount` | app/javascripts/app.js:57-63 | each value that passes the test occurs in the result of `_.filter` exactly as often as in the input; every other value is gone |
| `Lodash.FilterAppend` | app/javascripts/app.js:60-67 | filtering a concatenation is the concatenation of the filtered parts |
| `Lodash.Map` | app/javascripts/app.js:64-66 | `_.map` keeps the length and applies the function at every position |
| `Talk.ToLayoutClass` | app/javascripts/app.js:64-66 | on a `slide--` class, `replace('slide--', 'layout--')` rewrites exactly the leading prefix, and the result is a `layout--` class |
| `Talk.ToLayoutClassRenames` | app/javascripts/app.js:65 | `slide--X` becomes `layout--X` for every `X` |
| `Talk.ToLayoutClassPreimage` | app/javascripts/app.js:64-66 | the only slide class rewritten to `layout--X` is `slide--X`, so the rewriting is one-to-one |
| `Talk.SyncKeepsOtherClasses` | app/javascripts/app.js:60-63 | the non-`layout--` classes of the result are exactly those of the container, in the same relative order and with the same multiplicities |
| `Talk.SyncLayoutClassesFromSlide` | app/javascripts/app.js:57-66 | the `layout--` classes of the result are, one for one and in the slide's order, `layout--X` for the present slide's `slide--X` classes; no earlier layout class of the container survives |
| `Talk.SyncLayoutClassesLast` | app/javascripts/app.js:60-67 | the derived layout classes are appended: every class after a layout class in the result is a layout class |
| `Talk.SyncMembership` | app/javascripts/app.js:57-67 | a class is in the result if and only if it is a non-`layout--` container class or `layout--X` for some `slide--X` class of the present slide |
| `Talk.LayoutClassCount` | app/javascripts/app.js:64-66 | rewriting a list of slide classes yields `layout--X` exactly as often as the list holds `slide--X` |
| `Talk.SyncLayoutClassCount` | app/javascripts/app.js:57-66 | a `layout--X` class occurs in the result exactly as often as `slide--X` on the present slide, whatever the container held before |
| `Talk.SyncOtherClassCount` | app/javascripts/app.js:61-63 | a class that does not start with `layout--` occurs in the result exactly as often as in the container |
| `Talk.SyncIgnoresOtherSlideClasses` | app/javascripts/app.js:57-59 | a slide class not starting with `slide--` contributes nothing, wherever it stands in the slide's class list |
| `Talk.SyncIdempotent` | app/javascripts/app.js:54-69 | synchronising the result again with the same slide classes gives the same class list |
| `Talk.SyncWithoutSlideClasses` | app/javascripts/app.js:57-66 | when the present slide has no `slide--` class, the result has no `layout--` class |
| `Talk.SyncLength` | app/javascripts/app.js:60-67 | the result has one class per kept container class plus one per `slide--` slide class, so at most as many as both lists together |
| `Talk.SyncKeepsDuplicates` | app/javascripts/app.js:60-67 | duplicate container classes are not merged: `slides slides` with an unclassed slide stays `slides slides` |
| `Talk.SyncReplacesLayoutClasses` | app/javascripts/app.js:56-68 | container `other layout--old` on a slide `slide--A slide--B` becomes `other layout--A layout--B` |
| `Talk.SyncClearsLayoutClasses` | app/javascripts/app.js:56-68 | container `other layout--A` on a slide without classes becomes `other` |
| `Talk.SyncAddsLayoutClass` | app/javascripts/app.js:56-68 | container `other` on a slide `slide--A` becomes `other layout--A` |
| `Talk.DerivedSpaceFree` | app/javascripts/app.js:64-66 | rewriting space-free slide classes gives space-free layout classes |
| `Talk.SyncSpaceFree` | app/javascripts/app.js:56-68 | when neither the container tokens nor the slide classes contain a space, no class of the result does |
| `Talk.SyncAttributeReadsBack` | app/javascripts/app.js:56-68 | splitting the written attribute on spaces gives exactly the synchronised class list, unless that list is empty |
| `Talk.SyncAttributeIdempotent` | app/javascripts/app.js:54-69 | on the class attribute itself, a second synchronisation with the same slide classes writes the same attribute as the first, the empty attribute included |
| `Talk.Deck.constructor` | app/javascripts/app.js:30 | the deck starts with the container's class attribute as found |
| `Talk.Deck.SetGlobalStateClasses` | app/javascripts/app.js:54-69 | the new attribute is the old one split on spaces, synchronised with the slide's classes and joined with spaces; read back, it gives the synchronised class list |

## Left out

- `Reveal.initialize` and its configuration and dependency list (app.js:4-28): this only passes configuration to the external framework.
- Registering `onSlideChange` for `ready` and `slidechanged`, and the throttled resize handler (app.js:33-37, 41-47): event-loop and timing plumbing around a foreign throttle call.
- `forceFullScreen` (app.js:49-51): it only sets the CSS `top` of a slide through jQuery.
- `customScripts` (app.js:70-71): it is empty.
- The DOM lookup of the present slide and the `DOMTokenList` behind `classList` (app.js:55, 57): the slide's classes are a parameter. The model does not de-duplicate them and does not split them on whitespace.
- The jQuery lookup `$('.slides').first()` (app.js:30): the deck's constructor takes the container's class attribute. The container is found by its `slides` class, so the attribute always exists. The case where `attr('class')` is undefined is not modelled.
- ClassStrings.ReplaceFirst: inserts the replacement literally. JavaScript's `replace` would expand `$$`, `$&`, `` $` `` and `$'` in it. The only replacement used, `'layout--'`, holds no `$`.
- Talk.SyncAttributeIdempotent: requires that the slide's classes contain no space. A DOM class list never holds such a class.
- Talk.SyncAttributeReadsBack: requires space-free slide classes and a non-empty result. An empty attribute reads back as one empty token (`"".split(' ')` is `[""]`).
- Talk.Deck.SetGlobalStateClasses: its read-back clause holds only under the same two conditions.
