# Signify: letterbox geometry, sentence composition and the save counter

This project models the two pure cores inside Signify's camera and UI loops.

The first core is the **frame normaliser**. It takes a hand's bounding box `(x, y, w, h)`, crops the frame around it with a margin of `offset` pixels, and letterboxes the crop into a white `imgSize x imgSize` canvas for the gesture classifier. The code appears twice:
- `main.py`, whose crop is a raw numpy slice, so a negative start counts from the far edge;
- `dataCollection.py`, which clamps the crop rectangle to the frame first.

The second core is the **text composer** of `main.py`. It holds the sentence built from recognised labels. It edits the sentence through the key and button handlers, and after every edit it recomputes up to five dictionary completions of the word being typed.

The model also covers the **save counter** of `dataCollection.py`. The `'s'` key saves the canvas and bumps the counter. It checks for the canvas with `'imgWhite' in locals()` at module scope, so a canvas from an earlier loop iteration still counts.

Modules:
- `Wrappers` (wrappers.dfy): `Option` and `Result`.
- `Imaging` (imaging.dfy): pixels and images. Also Python slice normalisation, slice cropping, `cv2.resize` kept up to its output size, and the numpy slice assignments that paste content into a band.
- `FrameNormalizer` (letterbox.dfy): the exact-integer `math.ceil` arithmetic, the placement of the band, and the letterbox block shared by both scripts.
- `MainFrame` (main_frame.dfy): the unclamped crop pipeline of `update_frame`.
- `DataCollection` (data_collection.dfy): the clamped crop, and the loop state behind the save key.
- `PyStr` (pystr.dfy): `strip`, `split(" ")`, `" ".join`, `upper` and `s[:-1]`, as the handlers use them.
- `Composer` (composer.dfy): the sentence handlers and `update_suggestions`.

Behaviours of the code worth knowing, all of which the model keeps:
- `main.py` never clamps its crop.
- The suggestion list follows the dictionary set's iteration order, which is arbitrary. Nothing is sorted.
- Tokens come from `split(" ")`. Doubled spaces therefore give empty tokens.
- Add-then-backspace restores the sentence only for a one-character label, or when the label and the sentence are both still empty. `"I am"` adds four characters.
- The `'s'` key saves the most recent canvas ever built, even on a tick with no hand.
- The counter moves before `cv2.imwrite` runs, whatever the write returns.

## Model

| member | source | states |
|---|---|---|
| Imaging.Blank | main.py:114 | a fresh canvas is `size x size` and white everywhere |
| Imaging.SliceIndex | main.py:115 | a slice bound in `[0, n]` is kept, a negative one down to `-n` counts from the end, one below `-n` becomes 0 and one above `n` becomes `n` |
| Imaging.SliceLength | main.py:115 | the slice is non-empty iff the normalised start is before the normalised stop, and then runs from one to the other |
| Imaging.SliceLengthInRange | main.py:115 | a slice whose bounds lie inside the axis keeps exactly `stop - start` indices |
| Imaging.NegativeStartWraps | main.py:115 | a negative start is taken from the end of the axis, so the slice is non-empty only if the stop passes the wrapped start |
| Imaging.Crop | main.py:115 | the crop's extents are the Python slice lengths, and crop pixel `(i, j)` is the frame pixel at the normalised start plus `(i, j)` |
| Imaging.Resize | main.py:123 | `cv2.resize` succeeds exactly for a non-empty source and a positive target, and then has the requested width and height |
| Imaging.PasteColumns | main.py:125 | for an in-range column band the assignment succeeds iff the content's shape matches the band; inside the band the pixels are the content's, shifted; outside they are unchanged |
| Imaging.PasteRows | main.py:131 | the row-band counterpart of the column paste |
| FrameNormalizer.CeilDiv | main.py:122 | the quotient `q` is the least integer with `a <= b * q` |
| FrameNormalizer.Place | main.py:118-130 | the column branch is taken iff `h > w`; the scaled side is the ceiling of `imgSize * w / h` (or `imgSize * h / w`); the gap is the ceiling of half the leftover |
| FrameNormalizer.ScaledSideBounds | main.py:120-128 | `wCal`/`hCal` lies in `[0, imgSize]`, and in `[1, imgSize]` when `h` and `imgSize` are positive |
| FrameNormalizer.PlacementFits | main.py:120-131 | `0 <= gap` and `gap + size <= imgSize`, so the slices at lines 125 and 131 stay inside the canvas |
| FrameNormalizer.Centred | main.py:124 | the gap before the band minus the gap after it is 0 or 1 |
| FrameNormalizer.SquareFillsCanvas | main.py:126-130 | a square box takes the row branch with `hCal == imgSize` and `hGap == 0` |
| FrameNormalizer.TallBoxExample | main.py:120-125 | `w = 100, h = 200, imgSize = 300` gives `wCal = 150`, `wGap = 75`, so the content occupies columns `[75, 225)` |
| FrameNormalizer.FillBand | main.py:123-131 | resize-and-paste succeeds iff the crop is non-empty and the band and canvas are positive; pixels in the band come from the resized crop, the rest of the canvas is unchanged |
| FrameNormalizer.Letterbox | main.py:117-131 | `w == 0` raises the division error; the block succeeds iff the crop is non-empty and `w`, `h` and `imgSize` are positive; the canvas is always `imgSize x imgSize` |
| FrameNormalizer.LetterboxContents | main.py:114-131 | every canvas pixel outside the band stays 255 and every pixel inside it is the resized crop's |
| MainFrame.Normalize | main.py:111-131 | no hand gives nothing; an empty crop extent gives `NoValidCrop`; a canvas exists iff both extents and `w`, `h`, `imgSize` are positive; it is square, white outside the band, and inside the band holds the resized raw-slice crop |
| MainFrame.MarginCrop | main.py:115 | the raw-slice crop fits in the frame, and while the margin box starts inside the frame it is no larger than the margin box |
| MainFrame.CropInsideFrame | main.py:115 | when the margin box lies inside the frame the crop is exactly `(h + 2 offset) x (w + 2 offset)`, starting at `(y - offset, x - offset)` |
| MainFrame.CropAboveTopWraps | main.py:115 | when the margin box starts above the top edge, the row start wraps to `H + y - offset`, leaving `max(0, h + 2 offset - H)` rows |
| MainFrame.HandNearTopEdgeSkipped | main.py:115-117 | a hand within `offset` of the top edge, with a margin box shorter than the frame, yields `NoValidCrop` and is never classified |
| MainFrame.TopEdgeExample | main.py:115-117 | on a 640 x 480 frame a 100-pixel-tall hand at `y = 10` yields no canvas |
| DataCollection.ClampedRect | dataCollection.py:48-49 | `0 <= x1`, `0 <= y1`, `x2 <= W`, `y2 <= H`; the rectangle lies within the margin box and equals it when the margin box is inside the frame |
| DataCollection.ClampedCrop | dataCollection.py:48-52 | the clamped crop fits in the frame and, unless the stop corner is itself negative, is no larger than the margin box |
| DataCollection.ClampedCropExtents | dataCollection.py:52-55 | when the clamped stop corner is non-negative, the crop is `max(0, x2 - x1)` wide and `max(0, y2 - y1)` tall |
| DataCollection.ClampedCropInsideFrame | dataCollection.py:48-53 | when the margin box is inside the frame, the crop is `(w + 2 offset)` by `(h + 2 offset)` |
| DataCollection.Normalize | dataCollection.py:43-89 | the validity test is on the clamped crop; a canvas exists iff both extents and `w`, `h`, `imgSize` are positive; it is square and white outside the band of the unclamped box |
| DataCollection.ScalingUsesUnclampedBox | dataCollection.py:60-89 | the band and the resize target come from the bounding box's own `w` and `h`, even when the crop was clamped |
| DataCollection.AgreesWithMainInsideFrame | dataCollection.py:48-89 | when the margin box is inside the frame, both scripts build the same canvas, so their `wCal`/`wGap`/`hCal`/`hGap` agree |
| DataCollection.Step | dataCollection.py:57-106 | `imgWhite` becomes this iteration's canvas when one is built and otherwise keeps the earlier one; the counter never decreases and rises by exactly 1 iff the key is `'s'` and `imgWhite` is bound; an image is handed to `imwrite` exactly when the counter rises, and it is that `imgWhite`; a crash in the letterbox block ends the script |
| DataCollection.StaleCanvasSaved | dataCollection.py:103-105 | on a tick with no hand, `'s'` still saves the canvas an earlier tick left and bumps the counter |
| DataCollection.WriteResultIgnored | dataCollection.py:104-105 | the script never reads `imwrite`'s result, so whether the write succeeds changes nothing: a failed write still counts |
| DataCollection.Run | dataCollection.py:16-106 | once a canvas is bound it stays bound for the rest of the run |
| DataCollection.RunThenStep | dataCollection.py:18-106 | iterations run in order: one more iteration after a run is one more `Step` from the state it reached, and a run that crashed stays crashed |
| DataCollection.NoSaveBeforeFirstCanvas | dataCollection.py:102-104 | until some iteration builds a canvas, no number of `'s'` presses moves the counter |
| DataCollection.RunCounterBounds | dataCollection.py:102-106 | over any run the counter never decreases and grows by at most one per iteration |
| PyStr.TrimLeft | main.py:186 | the result has no leading space and is no longer than the input |
| PyStr.TrimRight | main.py:186 | the result has no trailing space and is no longer than the input |
| PyStr.TrimLeftRemovesSpaces | main.py:186 | left-stripping removes a prefix made of spaces only |
| PyStr.TrimRightRemovesSpaces | main.py:186 | right-stripping removes a suffix made of spaces only |
| PyStr.Strip | main.py:186 | the stripped sentence neither starts nor ends with a space |
| PyStr.StripRemovesSpaces | main.py:186 | `strip()` keeps one contiguous run of the input, starting where left-trimming stopped, and every character outside that run is a space |
| PyStr.StripKeepsTrimmed | main.py:207 | a string with no space at either end is its own strip |
| PyStr.StripTrailingSpace | main.py:186 | appending a space never changes the stripped sentence |
| PyStr.Split | main.py:186 | `split(" ")` returns at least one piece |
| PyStr.SplitPiecesSpaceFree | main.py:186 | no piece of `split(" ")` contains a space |
| PyStr.Join | main.py:209 | the first piece of `" ".join(xs)` is a prefix of it; `JoinSplit` and `SplitJoin` make it the inverse of the split |
| PyStr.JoinLastPiece | main.py:209 | the last piece is a suffix of the join: all of it for one piece, and preceded by a space otherwise |
| PyStr.SplitLastPiece | main.py:186 | the last piece of `split(" ")` is a suffix of the string, and is either the whole string or preceded by a space |
| PyStr.JoinSplit | main.py:207-209 | joining the pieces of a split with single spaces gives back the string |
| PyStr.SplitJoin | main.py:207-209 | splitting a join of space-free pieces gives back the pieces |
| PyStr.DropLast | main.py:180 | `s[:-1]` is `""` on `""`, and otherwise the string minus its last character |
| PyStr.Upper | main.py:186 | upper-casing keeps the length and maps every character through `UpperChar` |
| Composer.LastToken | main.py:186 | the word being typed is the text after the last space of the stripped sentence: space-free, a suffix of it, and either all of it or preceded by a space |
| Composer.PartialInput | main.py:186 | the partial input is the last token upper-cased character by character, of the same length and space-free |
| Composer.Matches | main.py:190 | the comprehension holds exactly the dictionary words that start with the prefix, each as often as in the dictionary |
| Composer.FirstMatches | main.py:190 | `[:5]` of the matches: a sub-multiset of them of size `min(5, number of matches)`, so every matching word is present when fewer than 5 match |
| Composer.Suggestions | main.py:186-192 | an empty partial input gives `[]`; otherwise at most 5 dictionary words, each starting with the upper-cased last token, and all of them when fewer than 5 are returned; the list is a sub-multiset of the matches of size `min(5, number of matches)` |
| Composer.NoRepeatedSuggestion | main.py:186-192 | a dictionary with no repeated word, as a set is, never yields a repeated suggestion |
| Composer.EmptySentenceNoSuggestions | main.py:186-192 | the empty sentence has an empty last token and no suggestions |
| Composer.TrailingSpaceKeepsSuggestions | main.py:186 | a sentence ending in a space has the same last token and suggestions as without it, so it still completes the previous word |
| Composer.IAmPartialInput | main.py:186 | after the label `"I am"` the partial input is `"AM"` |
| Composer.ApplyWord | main.py:207-209 | the result ends with a space, and with exactly one when the word is a non-empty space-free word |
| Composer.ApplyOnEmpty | main.py:207-209 | on an empty sentence the result is `word + " "` |
| Composer.ApplyOnTwoWords | main.py:207-209 | in a two-word sentence, only the second word is replaced, and a space is appended |
| Composer.ApplyExample | main.py:207-209 | `"HELLO WOR"` with `"WORLD"` gives `"HELLO WORLD "` |
| Composer.ApplyKeepsEarlierTokens | main.py:207-209 | re-splitting the result gives every earlier token unchanged and in order, followed by the chosen word |
| Composer.ApplyIdempotent | main.py:207-209 | applying the same space-free word twice equals applying it once |
| Composer.Init | main.py:20-22 | the app starts with an empty sentence and label and suggestions in step with it |
| Composer.Refresh | main.py:184-192 | `update_suggestions` puts the shown list in step with the sentence and leaves the sentence, label and dictionary alone |
| Composer.OnClassified | main.py:134-138 | a classified frame replaces `predicted_char` and leaves the sentence alone |
| Composer.AddPrediction | main.py:166-170 | the sentence grows by the label verbatim: the old sentence is its prefix and the label its suffix |
| Composer.AddPredictionBeforeAnyLabel | main.py:21 | while `predicted_char` is still `""`, adding the prediction changes nothing |
| Composer.AddPhraseLabel | main.py:39-40 | the phrase label `"I am"` appends four characters |
| Composer.AddSpace | main.py:172-176 | exactly one space is appended, and the suggestions stay what they were |
| Composer.DeleteCharacter | main.py:178-182 | `""` stays `""`; otherwise the sentence loses exactly its last character |
| Composer.SpaceThenDeleteRestores | main.py:172-182 | a space followed by a backspace restores the whole state |
| Composer.PredictionThenDeleteRestoresIff | main.py:166-182 | adding the label then deleting restores the sentence iff the label is one character, or both are empty |
| Composer.ApplySuggestion | main.py:205-211 | after applying a space-free word, re-splitting the stripped sentence gives the earlier tokens unchanged and in order followed by the word, so the word being typed is that word; the suggestions are in step |
| Composer.ClearSentence | main.py:218-223 | the sentence becomes `""` and the suggestions `[]`; the label and dictionary are unchanged |
| Composer.ClearIsInSync | main.py:218-223 | emptying the suggestions directly equals recomputing them for `""` |
| Composer.HandlersKeepSync | main.py:166-222 | every handler leaves the shown suggestions in step with the sentence |

## Left out

- Camera capture, the `HandDetector` and `Classifier` calls, and the `labels[index]` lookup are left out. They are external libraries and I/O. The detector's first hand is an `Option<BoundingBox>` input, and a classified label is the `OnClassified` argument.
- `cv2.resize` pixel contents are left out. Any resampler may be supplied; only the output size and the failure on empty sizes are modelled.
- Colour conversion, the overlay rectangles and text, the `ui` compositing and the re-resize for display are left out. They only draw.
- Floating point is not modelled. `h / w`, `k * w` and `math.ceil` are computed exactly over rationals. In IEEE doubles, `(300 / h) * h` exceeds 300 for some square sides (73, 146, 149, 292 and 298 among them), so `hCal` becomes 301 and `hGap` becomes `ceil(-0.5) = 0`. The assignment `imgWhite[0:301, :] = imgResize` then raises a shape error: `main.py` stops updating frames, because the timer at line 164 is never re-armed, and `dataCollection.py` exits. `FrameNormalizer.SquareFillsCanvas` and the success condition of `FrameNormalizer.Letterbox` hold only in exact arithmetic. Boxes that do not crash can still differ by a pixel: `w = 33, h = 11` gives `hCal = 101` in doubles against 100 exactly, and `w = 18, h = 15` gives 251 against 250. The values of `FrameNormalizer.Place`, and facts such as `FrameNormalizer.TallBoxExample`, are exact-arithmetic values.
- The dictionary set's iteration order is left out. The dictionary is a sequence in any order, and no order is assumed.
- The Tk UI (`create_ui`, `bind_keys`, `display_suggestions`), `speak_sentence` with `pyttsx3`, and the `nltk` download are left out. They are UI and I/O.
- `time.time()` file names, frame-read failure and loop termination (Esc, window close) are left out. `Run` models a finite prefix of the loop.
- numpy broadcasting of a one-wide content onto a wider band is not modelled. A shape mismatch is an error, and the band is proved always to have the content's exact width.
- `strip` trims only `' '`, and `upper` maps only ASCII letters. The sentence holds only labels, spaces and dictionary words.
- Composer.Suggestions: when more than five words match, the contract does not say which five. The code takes the first five in the set's arbitrary iteration order, and `Matches` keeps that order.
- DataCollection.Run: keeps only the loop state after the last iteration; the image each iteration hands to `imwrite` is what `Step` returns.
- DataCollection.ClampedCropExtents: assumes the clamped stop corner is non-negative. A box lying wholly left of or above the frame would make `x2` or `y2` negative, and the slice would wrap. The detector does not report such boxes.
