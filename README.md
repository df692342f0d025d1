# html2pptx layout core in Dafny

html2pptx turns a part of a web page into a PowerPoint deck. The part is the
first node a CSS selector matches. Each element child of that node becomes one
slide. The slide's content comes from walking the child's markup tree. It is
a sequence of atoms: image urls and trimmed text strings.

Each slide is then laid out:

- It is counted and classified: dropped, given the column layout, or given
  the generic layout.
- Its atoms are partitioned into an images array and text columns. The images
  array may start with the placeholder "empty".
- Each picture is inserted at its native size, clamped to the usable area
  with its aspect ratio kept, and centred when it is alone.
- One text box is placed per text column. Each box gets a vertical anchor and
  paragraphs, and every paragraph a title flag.

The model has these modules:

- `Atoms`: the atom datatype, the error cases and `Then`. `Then` is the "first
  failure wins, otherwise concatenate" combination of partial results.
- `Strings`: Python's `strip` and `" ".join`, and the cleaning of strings.
  Cleaning strips a string and drops it if it is empty or a conditional
  comment. A conditional comment is a string that starts with `[if mso | IE]`.
- `Markup`: the markup tree, and the parser queries the extractor makes:
  `.string`, the direct strings and all strings.
- `Extractor`: `parse_tag_contents` and `html_to_slides`. Each is a function,
  `Extract`/`Slides`, plus a method with the source's loop proved equal to it.
- `Classifier`, `Partitioner`, `Geometry`, `Pictures`, `TextFrame`,
  `Layout`: `fill_slide`. Each of its loops is a method proved to compute a
  specification function. Lemmas about those functions state what the layout
  guarantees.
- `Deck`: `slides_to_pptx` and `html_to_pptx`, from the matched nodes onward.

Image sizes come from a download in the source. Here they are an input: a
map from url to a positive native size in inches. A url that is not in the map
stands for an image that cannot be downloaded or decoded. That aborts the
whole conversion, as the propagated exception does in the source.

The lemmas prove some behaviours of the code that may surprise a reader:

- The conditional-comment filter is only applied where strings are merged.
  A tag whose whole `.string` is a conditional comment still yields it as a
  text atom (`Extractor.SoleConditionalCommentKept`). The filter's evident
  purpose is that such a fragment yields no atom; the model follows the code.
- A real image whose src is the word "empty" is taken for the placeholder
  (`Partitioner.Placeholder`).
- The margin guard in the centring code never fires once a picture is clamped
  (`Geometry.SingleImageCentered`).
- A text box under a picture taller than 6.9 inches has a negative height
  (`Layout.TextRectHeight`).
- Columns have a positive width only for up to 95 images-array entries
  (`Geometry.ColumnWidthPositive`).
- An empty text leaves the first paragraph of its frame empty, so the next
  text overwrites it (`TextFrame.EmptyTextOvertaken`). The extractor never
  emits an empty text, so this does not happen in a whole conversion
  (`Layout.ParagraphsAreTexts`).

## Model

| member | source | states |
|---|---|---|
| Atoms.Then | main.py:72-117 | combined result is Ok iff both parts are; its value is their concatenation; a failure of the first part is the result, and otherwise a failure of the second part is |
| Strings.TrimStart | main.py:90 | result is a suffix of the input, every dropped character is white space, and the result does not start with white space |
| Strings.TrimEnd | main.py:90 | result is a prefix of the input, every dropped character is white space, and the result does not end with white space |
| Strings.Strip | main.py:82-83 | stripped string is trimmed, and it is empty exactly when the input is all white space |
| Strings.StripTrimmed | main.py:90 | stripping a trimmed string changes nothing |
| Strings.JoinTrimmed | main.py:111 | space-joining at least one non-empty trimmed string gives a non-empty trimmed string that starts with the first string's first character and ends with the last string's last character |
| Strings.Sanitize | main.py:90-92 | cleaned string is either "" or the stripped string when that is not a conditional comment; it is non-empty exactly when the stripped string is non-empty and not a conditional comment |
| Strings.Kept | main.py:93-94 | a string contributes at most one entry, its cleaned form, and nothing exactly when that is empty |
| Strings.Sanitized | main.py:88-94 | cleaned list is no longer than the input, and every entry is non-empty, trimmed and not a conditional comment |
| Strings.SanitizedConcat | main.py:89-94 | cleaning distributes over concatenation |
| Strings.ConditionalCommentDropped | main.py:91-92 | a conditional comment is dropped wherever it stands in the list |
| Markup.AllStringsConcat | main.py:98 | descendant strings of a concatenation of forests are the concatenation |
| Markup.StringIsWholeText | main.py:80-83 | when a node has a `.string`, it is the node's only descendant string |
| Markup.DirectStringsSurvive | main.py:87-105 | if a direct string survives cleaning, some descendant string survives too |
| Extractor.ExtractConcat | main.py:72-117 | extraction of a concatenation of children is the combination of the two extractions |
| Extractor.ExtractPrefix | main.py:73-116 | the first i+1 children extract to the first i followed by child i |
| Extractor.ExtractSingle | main.py:73-116 | a single child extracts to what that child contributes |
| Extractor.TextNodeIgnored | main.py:75 | a text node among the children contributes nothing, wherever it stands |
| Extractor.ImageIsTerminal | main.py:77-79 | an img element with a src yields exactly one image atom carrying that src, whatever its subtree |
| Extractor.Splice | main.py:114-116 | an element with no `.string` and no surviving direct string can be replaced by its children without changing the result |
| Extractor.MergedText | main.py:107-112 | an element with a surviving direct string yields exactly one text atom: the space-join of all its cleaned descendant strings, non-empty and trimmed |
| Extractor.ConditionalCommentNotMerged | main.py:87-111 | inserting a conditional comment among a merging element's children keeps it merging and changes nothing it yields |
| Extractor.SoleConditionalCommentKept | main.py:80-83 | an element whose only child is a conditional comment yields the stripped comment as a text atom |
| Extractor.ExtractClean | main.py:71-117 | every text atom extracted from a sequence of children is non-empty and trimmed |
| Extractor.ExtractChildClean | main.py:73-116 | every text atom one child yields is non-empty and trimmed |
| Extractor.Elements | main.py:60-61 | the selected children are all elements |
| Extractor.SlidesOfOk | main.py:60-63 | slide extraction succeeds exactly when the extraction of every element child succeeds |
| Extractor.SlidesOfElements | main.py:56-64 | there is one slide per element child, in order, and slide k is the extraction of element child k |
| Extractor.SlidesOfPrefix | main.py:60-63 | the first i+1 children give the slides of the first i followed by child i's slide |
| Extractor.SlidesOfConcat | main.py:60-63 | slides of a concatenation of children are the combination of the two |
| Extractor.SanitizeStrings | main.py:88-94 | the cleaning loop computes Sanitized |
| Extractor.SanitizedSnoc | main.py:89-94 | the cleaning of one more string appends what that string contributes |
| Extractor.ParseTagContents | main.py:71-117 | the loop computes Extract of the tag's children, including the failure on an img without src, and its text atoms are clean |
| Extractor.FailureStays | main.py:73-116 | once a prefix of the children fails, the whole extraction fails with the same error |
| Extractor.HtmlToSlides | main.py:56-64 | the loop computes Slides; an empty match fails with ContentNotFound; every text atom of every slide is clean |
| Classifier.MaxTextLen | main.py:141-150 | the longest text length bounds every text atom and is attained by one, or is 0 |
| Classifier.ImageUrlsConcat | main.py:144-147 | images of a concatenation are the concatenation |
| Classifier.TextsConcat | main.py:196-199 | texts of a concatenation are the concatenation |
| Classifier.NoImageUrls | main.py:144-147 | there is no image url exactly when every atom is a text |
| Classifier.DegenerateIff | main.py:152-155 | a slide is dropped exactly when every atom is the empty text |
| Classifier.MaxTextLenUnique | main.py:141-150 | a bound that is attained, or is 0, is the longest text length |
| Classifier.CountContent | main.py:139-150 | the counting loop returns the image count and the longest text length |
| Classifier.ShortTextBoundary | main.py:164-166 | the 75-character threshold is inclusive: 75 gives the column layout, 76 does not |
| Partitioner.CaptionsPerImage | main.py:185-190 | there is one caption per image atom |
| Partitioner.FlattenConcat | main.py:174-207 | flattening distributes over concatenation |
| Partitioner.LeadAndCaptions | main.py:174-203 | the leading texts followed by the captions, flattened, are all the texts in order |
| Partitioner.LeadWithoutImages | main.py:191-193 | without images all texts are leading texts and there is no caption |
| Partitioner.LeadSnoc | main.py:191-193 | one more atom extends the leading texts only when it is a text and no image came before |
| Partitioner.CaptionsSnoc | main.py:178-193 | one more image opens an empty caption; one more text joins the last caption, if any |
| Partitioner.Aligned | main.py:201-203 | in column layout the images array and the text columns have the same length |
| Partitioner.PlaceholderIff | main.py:180-184 | there are leading texts exactly when the slide starts with a text, and the images array is then the placeholder followed by the image urls, otherwise the image urls alone |
| Partitioner.PartitionKeepsContent | main.py:174-207 | in both layouts the flattened text columns are the texts in order, and the images array is the images in order, possibly after one placeholder in column layout |
| Partitioner.ColumnImageStep | main.py:178-190 | one more image appends its url to the images array and an empty column to the text columns |
| Partitioner.ImageSnoc | main.py:178-190 | one more image appends its url, keeps the leading texts and opens an empty caption |
| Partitioner.ColumnTextStep | main.py:191-193 | one more text joins the leading texts before the first image, and the current column after it |
| Partitioner.TextSnoc | main.py:191-193 | one more text keeps the images, and joins the leading texts or the last caption |
| Partitioner.Partition | main.py:168-207 | the partition loop returns the images array and text columns of Partitioned |
| Geometry.ColumnsTile | main.py:210-214 | the columns start at the left margin, are a column margin apart, and the last ends at the right margin |
| Geometry.ColumnWidthPositive | main.py:210-214 | a column is wider than 0 exactly when there are fewer than 96 images-array entries |
| Geometry.Fitted | main.py:239-246 | a clamped picture is within 9.5 x 7 inches, keeps its aspect ratio, never grows, is unchanged if it fits, and otherwise touches a bound |
| Geometry.SingleImageCentered | main.py:248-264 | a picture alone is centred horizontally, and vertically when there is no text, and stays within the margins |
| Geometry.ImageInColumn | main.py:229-232 | with several entries, picture i sits at the top margin of column i |
| Geometry.PictureShape.constructor | main.py:237 | a picture is inserted at the given position with its native size |
| Geometry.PictureShape.FitToSlide | main.py:239-246 | the two clamping passes on the shape give the size Fitted gives |
| Geometry.PictureShape.Center | main.py:248-264 | centring sets left to the guarded centre, and top too when there is no text |
| Pictures.FirstUnfetchable | main.py:220-237 | the index of the first image that cannot be fetched, with every image before it fetchable |
| Pictures.MaxOfIsMax | main.py:266-268 | the running maximum bounds every height and is one of them, or is 0 |
| Pictures.MaxOfSnoc | main.py:267-268 | one more height raises the maximum only when it is larger |
| Pictures.FailsAt | main.py:235-237 | the first image that cannot be fetched decides the error |
| Pictures.ImagesLayoutShape | main.py:216-268 | the layout fails exactly when an image cannot be fetched, naming the first; otherwise there is one placement and height per entry, nothing and 0 for the placeholder, no height above 7 inches, and the maximum is the largest height or 0 |
| Pictures.InsertPicture | main.py:229-264 | one inserted, clamped and centred picture has the rectangle ImageRect |
| Pictures.LayoutOfLoop | main.py:220-268 | arrays built entry by entry are those of ImagesLayout |
| Pictures.PlaceImages | main.py:216-268 | the picture loop computes ImagesLayout, including the fetch failure |
| TextFrame.Frame | main.py:302-333 | a frame always holds at least one paragraph |
| TextFrame.FrameOfTexts | main.py:312-333 | when no text is empty, the paragraphs are exactly the texts in order, each with the title flag |
| TextFrame.EmptyTextOvertaken | main.py:320-326 | an empty text is overwritten by the next text |
| TextFrame.FillTextFrame | main.py:312-333 | the paragraph loop computes Frame |
| Layout.TextRectBottom | main.py:272-290 | every text box ends at the bottom margin |
| Layout.TextRectHeight | main.py:277-290 | a text box's height is non-negative exactly when the picture height above it is at most 6.9 inches |
| Layout.ColumnsAligned | main.py:283-290 | in column layout there is one images-array entry per text column, and at least two, so the height lookup is in bounds |
| Layout.PlaceTextBox | main.py:272-290 | the rectangle computation for one text box gives TextRect |
| Layout.AddTextBoxes | main.py:270-333 | the text-box loop computes TextBoxes |
| Layout.FillSlide | main.py:138-333 | fill_slide computes LayoutSlide |
| Layout.DroppedIff | main.py:152-155 | a slide adds nothing exactly when it has no image and no non-empty text |
| Layout.AnchorIff | main.py:304-307 | text is anchored at the top exactly in column layout, otherwise in the middle |
| Layout.FrameTitles | main.py:314-333 | every paragraph of a frame with text carries the title flag, and none does without text |
| Layout.NoImagesArray | main.py:174-199 | the images array is empty exactly when the slide has no image |
| Layout.TitleIff | main.py:314 | a paragraph is a title exactly when the slide has no image and a single text |
| Layout.ColumnBoxesUnderPictures | main.py:283-290 | in column layout, text box i starts at column i's left edge with the column width, a margin below picture i (or below the top margin under the placeholder), and ends at the bottom margin |
| Layout.GenericBoxBelowPictures | main.py:272-281 | in the generic layout there is at most one text box, present exactly when there is text; it spans the usable width, ends at the bottom margin, and starts a margin below the tallest picture |
| Layout.NoEmptyText | main.py:82-83 | with no empty text atom, no text is empty |
| Layout.InFlatten | main.py:174-207 | a string of a column is in the flattened columns |
| Layout.LayoutParts | main.py:164-290 | a laid-out slide consists of its picture layout and the text boxes of its partition |
| Layout.FrameOfColumn | main.py:312-333 | a column without empty texts gives one paragraph per text, or the single empty paragraph |
| Layout.ParagraphsAreTexts | main.py:270-333 | with no empty text atom, the paragraphs of each box are its column's texts in order, and the columns hold every text of the slide in order |
| Layout.PlaceholderTakesAColumn | main.py:180-214 | a text before two images gets the placeholder and a column of its own, three columns of 3.1 inches |
| Deck.Append | main.py:122-125 | one more slide keeps an earlier failure, otherwise returns the slide's own failure, otherwise appends the slide's layout to the unchanged deck unless the slide is dropped |
| Deck.DeckOk | main.py:120-128 | the deck is built exactly when every slide can be laid out |
| Deck.DeckSize | main.py:152-159 | a deck has one slide per slide that is not dropped |
| Deck.NonDegenerateSnoc | main.py:152-155 | one more slide extends the slides that are kept exactly when it is not dropped |
| Deck.DeckContents | main.py:120-128 | a built deck holds, in order, one layout per slide that is not dropped, each the layout of that slide |
| Deck.DeckError | main.py:122-125 | a failing deck reports the error of the first failing slide |
| Deck.FailureAborts | main.py:122-125 | once a prefix of the slides fails, the deck fails the same way |
| Deck.SlidesToPptx | main.py:120-128 | the slide loop computes DeckOf |
| Deck.HtmlToPptx | main.py:48-53 | the conversion computes Convert |
| Deck.ConvertedSlides | main.py:48-64 | an empty match fails with ContentNotFound; a successful deck has one slide per element child, and one layout per slide that is not dropped |

## Left out

- Fetching the page and the images (main.py:49-50, 235-237) is network I/O. The page enters as parsed nodes and each image as its native size; a missing size stands for any download or decoding failure.
- The HTML parser and the CSS selector (main.py:57-58) are library code. The model starts from the list of matched nodes, as elements.
- `html_to_slides`: the source raises IndexError when nothing matches (main.py:60). The model returns the error ContentNotFound instead.
- The python-pptx calls are library code: the presentation, the blank layout index 6 (main.py:17, 158-159), shape creation and saving the byte stream (main.py:128-135). The model returns the placements and text boxes themselves.
- The conversion to integer EMU by `Inches`/`Pt`, and Python floating-point arithmetic, are not modelled: lengths are exact reals. A size read back from a shape after assignment is the exact value, not the rounded one.
- Text-frame settings with no effect on placement are not modelled: word wrap and auto size (main.py:308-309). Centring and the title font size are modelled together as the paragraph's title flag (main.py:322-325, 329-332).
- python-pptx turns a line break inside a paragraph's text into a line break of that paragraph. This is not modelled: a paragraph holds its text as given.
- The atom encoding `"img_src:" + url` and its regular-expression test (main.py:79, 145, 175) are replaced by the Atom datatype. Two behaviours of the string encoding are therefore not reproduced:
  - A text atom that begins with `img_src:` and contains no line break is taken for an image by the source. A text with a line break after that prefix stays a text, because `.` does not match a newline.
  - An image url that contains a line break before its last character is taken for a text by the source. A url whose only line break is its last character is still taken for an image, because `$` also matches just before a final newline; the url then loses that newline.
- Configuration from the environment, debug printing and the red debug fill (main.py:24-45, 123-127, 221-222, 295-299, 316-317) are side effects controlled by global flags.
- The HTTP server (main.py:336-387) is I/O.
- Repeated downloads are not modelled. The source downloads each images-array entry separately, so the same url could yield different sizes. The model gives every occurrence of a url the same size.
