# Subcontractor sign-off overlay: a Dafny model

`app.py` is a small Streamlit tool that stamps delivery-order PDFs. It does
two things with the text of the first page. First, it extracts two fields
with regular expressions: the subcontractor ("Subcon", sometimes misspelt
"Subon") and the site receiver. Second, it draws an overlay from them:

- the subcontractor name on one or two lines, split around the company
  suffix "SDN" (as in "SDN BHD") or in the middle of the name, in a font
  shrunk for long lines;
- the receiver's capitalized first name as a signature;
- the date.

This project models that decision logic as pure Dafny functions and proves
what it guarantees. The modules are:

- `Text`: the Python string operations used. These are `split()` with no
  argument, `" ".join`, `strip()`, `replace('\n', ' ')`, `upper()` and
  `lower()`, all over ASCII.
- `Extraction`: the two `re.search` calls and the clean-up of their
  captures (`extract_info`, app.py:20-32). A match is a record of
  positions. `IsSubconMatch` and `IsReceiverMatch` state what the patterns
  accept. `Precedes` states the order in which Python's backtracking engine
  tries candidates:
  - start position, ascending;
  - then the greedy `\s*` longest first, so capture start descending;
  - then the lazy `(.*?)` shortest first, so capture end ascending.

  The executable search (`SubconFrom`, `ReceiverFrom`) is proved to return
  exactly the first match in that order.
- `NameLayout`: the line split and font size of `create_overlay`
  (app.py:46-77). This covers the first "SDN" word, the rebalancing loop
  that moves words while the first line is longer than 30 characters, the
  middle cut, and the brand-name and long-line font rule.
- `Signature`: the signature name (app.py:87-88).
- `Overlay`: the drawing calls (app.py:79-95), as a list of records
  `Draw(font, size, x, y, text)`. It also holds `SignPage`, the pipeline
  from page text to records.

Three facts about the code that are easy to miss:

- The first line is empty not only for an empty name. It is also empty
  whenever the first word of the name holds "SDN" (for example "SDN BHD
  FOO"), because the slice of words before the marker is empty
  (app.py:58). `LayoutFirstLineEmpty` states exactly when this happens.
- An extracted field can be the empty string, for example from the text
  "Subcon: Site Receiver: /", where both captures are empty (app.py:20,
  app.py:28). `ExtractInfo` then returns `""` for the field, not "Unknown".
- A name is kept verbatim on the first line only when it has no "SDN" word
  and at most two words, whatever its length. A two-word name longer than
  30 characters stays on one line and only gets the smaller font.

## Model

| member | source | states |
|---|---|---|
| Text.SplitWords | app.py:46 | `split()` yields only non-empty words without whitespace, and at least one word when the text starts with a non-space |
| Text.SplitJoin | app.py:64-65 | joining words with single spaces and splitting again gives back the same word list |
| Text.SplitAppend | app.py:46 | splitting two texts glued at whitespace is the concatenation of their splits |
| Text.SplitJoinPair | app.py:64-65 | the two joined lines, separated by a space, split into the concatenation of their word lists |
| Text.Strip | app.py:24 | `strip()` yields an infix of its input with no whitespace at either end, where everything cut off before and after it is whitespace |
| Text.StripUnique | app.py:24 | only one infix is stripped and bounded by whitespace on both sides, so the contract of `Strip` determines its result |
| Text.SplitStrip | app.py:24 | `strip()` adds and removes no word: the stripped text splits into the same words |
| Text.ReplaceNewlines | app.py:25 | `replace('\n', ' ')` keeps the length, puts a space where each line break was, and changes no other character |
| Text.SplitReplaceNewlines | app.py:25 | turning line breaks into spaces adds and removes no word |
| NameLayout.FindMarkerFirst | app.py:50-55 | the search loop finds the first word containing "SDN" in any case, and finds none exactly when no word contains it |
| NameLayout.Rebalance | app.py:61-62 | the loop only moves words from the end of the first line to the front of the second; it stops at the longest prefix that fits in 30 characters or has one word; a non-empty first line stays non-empty |
| NameLayout.Arrange | app.py:57-72 | the name stays verbatim exactly when there is no marker word and at most two words; otherwise the two lines hold all the words in order, and the second line is not empty |
| NameLayout.ArrangeAtMarker | app.py:57-65 | with a marker at word i, the first line is the longest settled prefix of the words before i, is empty exactly when i is 0, and the second line ends with the words from i on |
| NameLayout.LayoutAtMarker | app.py:57-65 | the same for the drawn lines: their words together are the name's words, the second line ends with the marker word and all words after it, each line is its words joined by single spaces, the first line is empty exactly when the marker is in the first word, and then the second line is the whole name re-joined |
| NameLayout.LayoutAtMiddle | app.py:66-69 | without a marker and with more than two words, the first line is the first `n // 2 + 1` words joined by single spaces and the second line the rest joined the same way; the second line is non-empty and no longer in words than the first |
| NameLayout.LayoutKeepsWords | app.py:46-72 | the two lines joined by a space split into exactly the words of the name |
| NameLayout.LayoutLineWords | app.py:64-69 | each line splits back into exactly the words the arrangement gave it |
| NameLayout.LayoutFirstLineEmpty | app.py:57-72 | the first line is empty exactly when the name is empty or its first word holds the marker |
| NameLayout.LayoutName | app.py:46-77 | the second line is empty exactly when there is no marker word and at most two words, in which case the first line is the name itself; the font is 4.5 exactly when the name holds "UNIVERSAL CELLULAR" in any case or the final first line is over 30 characters, and 6 otherwise |
| NameLayout.MarkerLongLineIsOneWord | app.py:57-77 | with a marker word, a first line over 30 characters is a single word; so without the brand name the small font is used exactly when the first line is one word longer than 30 characters |
| Signature.Capitalize | app.py:88 | `capitalize()` keeps the length and the letters up to case, and yields capitalized form |
| Signature.CapitalizeUnique | app.py:88 | the capitalized spelling of a word is unique, so any capitalized text equal to the word up to case is its `capitalize()` |
| Signature.FirstName | app.py:87-88 | the signature is empty exactly when the receiver is; otherwise it is the receiver's first word, capitalized, and holds no whitespace |
| Extraction.SubconAtBest | app.py:20 | the search at one start position returns the first subcontractor match at that position in backtracking order, or none when there is none |
| Extraction.ReceiverAtBest | app.py:28 | the same for the receiver pattern, whose capture cannot cross a line break and ends before a `/` or eight digits |
| Extraction.SubconFromFirst | app.py:20 | scanning start positions from left to right returns the first subcontractor match overall, or none exactly when the text has no match |
| Extraction.ReceiverFromFirst | app.py:28 | the same for the receiver pattern |
| Extraction.SubconSearchFirst | app.py:20 | the search from the start of the text finds nothing exactly when the pattern has no match, and otherwise the match `re.search` reports |
| Extraction.ReceiverSearchFirst | app.py:28 | the same for the receiver pattern |
| Extraction.FirstReceiverCaptureClean | app.py:28 | the receiver capture of the first match holds no `/` and no line break |
| Extraction.CleanSubcon | app.py:24-25 | the cleaned subcontractor capture has the same words as the capture, no line break, and no whitespace at either end |
| Extraction.ExtractSubcon | app.py:20-25 | the field is absent exactly when no match exists; otherwise it is the first match's capture, stripped and with line breaks turned into spaces |
| Extraction.ExtractReceiver | app.py:28-32 | the field is absent exactly when no match exists; otherwise it is the first match's capture, stripped, holding no `/` and no line break |
| Extraction.ExtractInfo | app.py:19-34 | each field falls back to "Unknown" when its pattern does not match; otherwise the subcontractor is the cleaned group of the match `re.search` reports and the receiver its stripped group; both fields are stripped and hold no line break; the receiver holds no `/` |
| Overlay.Compose | app.py:79-95 | exactly three records, or four with a second line; the first line is drawn at (510, 742) and a non-empty second line at (510, 732), both in Helvetica at the layout's size; a record at y 732 exists exactly when the second line is non-empty; the signature is drawn in Times-Italic 14 at (520, 665) and the date in Helvetica 10 at (500, 642) |
| Overlay.DrawnLinesKeepWords | app.py:79-84 | the name lines that are drawn hold exactly the words of the name |
| Overlay.SignPage | app.py:11-95 | for any page text, the drawn name lines hold exactly the words of the extracted subcontractor, and a non-empty receiver is signed with its capitalized first word |

## Left out

- Reading the PDF with `PdfReader` and `extract_text` (app.py:13-17). The model starts from the page text, and the exception path that returns `(None, None)` (app.py:36-38) is not modelled.
- ReportLab rendering, `BytesIO`, `save` and `seek` (app.py:42-43, 97-99). The overlay is the list of drawing records, without glyph metrics or page geometry.
- Merging the overlay into the uploaded PDF, the download name and the rest of the Streamlit page (app.py:101-171). This includes the gate `if subcon and receiver` (app.py:129), which decides only whether the page is built at all.
- The current date (app.py:133) is a parameter of `SignPage`, not a clock reading.
- Characters outside ASCII. The model uses ASCII whitespace as Python's `str.split()` sees it (including `\x1c`-`\x1f`), ASCII case mapping for `upper()`, `lower()`, `capitalize()` and `re.IGNORECASE`, and ASCII digits for `\d`. Python also treats Unicode spaces, digits and case pairs (such as the Kelvin sign matching "k") specially.
- The font size is a real number in the model. Python uses the integer 6 or the float 4.5, which ReportLab treats alike.
- Signature.FirstName: requires that a non-empty receiver has a first word. On a receiver made only of whitespace the source raises `IndexError` at `split()[0]`. The extracted receiver is always stripped, so `SignPage` never passes such a value.
- Concrete example pages are not worked through; the lemmas cover every input instead.
