# nxt-cpt-media-importer, modelled in Dafny

This project models the core of the WordPress plugin `nxt-cpt-media-importer.php` and proves properties of it. The plugin imports image files as posts of a custom post type. Each file becomes an attachment, and a new published post shows that attachment as its featured image.

Two pieces are modelled.

1. **The filename normaliser.** `generate_alt_text` turns a file name into the text used both as the image's alternative text and, through `generate_post_title`, as the post title:
   - take the basename without its last extension;
   - turn `-` and `_` into spaces;
   - delete every whole word "logo", in any letter case;
   - collapse white space to single spaces;
   - trim;
   - lower-case the text, then capitalise each word.

   These are pure functions over ASCII strings (modules `Text`, `PathInfo`, `AltText`). Lemmas state what the result is made of (`AltTextWords`), its form (`AltTextShape`), its exact value for plain names (`AltTextPlain`) and the examples printed on the admin page (`AltTextExamples`).
2. **The import pipeline over an abstract WordPress store.** `WordPress.Site` is the value of the store:
   - posts: title, post type, status, featured image;
   - attachments: file name, alternative text;
   - WordPress's one sequence of row ids;
   - two plans of host verdicts. These decide whether the next `media_handle_sideload` or `wp_insert_post` is accepted.

   `WordPress.Store` is the class the importer mutates in place, with one method per host call. `Importer` holds:
   - `import_single_file`, as a method on the store proved equal to a specification function;
   - `process_uploads` and the loop of `import_from_directory`, as `for` loops whose invariants tie the store and the results to a run of that function over the prefix already processed. The run itself is the generic `Batch.Run`;
   - the batch summary of `ajax_import_batch`.

   `ImporterProperties` proves what the pipeline promises. `ImporterAsWritten` models one path exactly as the code has it, and that path differs from what the code evidently intends (see Findings).

Character classes follow PCRE's default (non-`/u`) tables:
- `\w` is an ASCII letter, a digit or `_`;
- `\s` is space, tab, newline, vertical tab, form feed or carriage return;
- `/i` folds ASCII letters only.

`strtolower` and `ucwords` are ASCII-only, as in PHP 8.2 and later. Underscores are already spaces when `\b` is applied, so a word character there is a letter or a digit.

## Model

| member | source | states |
|---|---|---|
| Text.LowerChar | nxt-cpt-media-importer.php:271 | strtolower on one character: the result is never upper-case, is a word character exactly when the input is, and a non-upper-case character is unchanged; which letter an upper-case one becomes is Text.LowerCharOfUpper |
| Text.LowerCharOfUpper | nxt-cpt-media-importer.php:271 | an upper-case letter becomes its own lower-case letter, the one at the same place in the alphabet |
| Text.ToLower | nxt-cpt-media-importer.php:271 | no ensures; strtolower is LowerChar on every character, and AltTextWords.LowerIsLogo and AltTextWords.LowerAllDropLogos state what it does to the words |
| Text.NatToString | nxt-cpt-media-importer.php:154 | the decimal digits of a natural number: never empty, only digits, no leading zero except for 0 itself, and their value is the number |
| Text.IntToString | nxt-cpt-media-importer.php:154 | no ensures; Text.IntToStringReadsBack states its form |
| Text.IntToStringReadsBack | nxt-cpt-media-importer.php:154 | the decimal form of an error code starts with '-' exactly when the code is negative, followed by a non-empty run of digits without a leading zero whose value is the code's magnitude |
| Text.UpperChar | nxt-cpt-media-importer.php:271 | ucwords' upper-casing of one character: never lower-case, same word-character class, same lower-case form, and a non-lower-case character is unchanged |
| PathInfo.LastIndexOf | nxt-cpt-media-importer.php:266 | the last position of the character, with none after it, or -1 exactly when it does not occur |
| PathInfo.StripTrailingSlashes | nxt-cpt-media-importer.php:251 | a prefix of the path that does not end in '/', and everything cut off is '/' |
| PathInfo.Basename | nxt-cpt-media-importer.php:251 | basename never contains '/'; which part of the path it is is PathInfo.BasenameIsLastComponent |
| PathInfo.BasenameIsLastComponent | nxt-cpt-media-importer.php:251 | basename is the last component of the path once trailing slashes are stripped: a suffix of what is left, preceded by a '/' unless it is all of it |
| PathInfo.Stem | nxt-cpt-media-importer.php:266 | no ensures; PathInfo.BasenameSplits and PathInfo.StemAndExtensionOfName state what it is |
| PathInfo.Extension | nxt-cpt-media-importer.php:245 | no ensures; PathInfo.BasenameSplits states what it is: the part after the basename's last '.', and "" when the basename has no '.' |
| PathInfo.BasenameSplits | nxt-cpt-media-importer.php:245 | the basename is the PATHINFO_FILENAME part, then '.' and the PATHINFO_EXTENSION part when it has a dot; the extension has no '.', and neither part has '/'; a basename without '.' has the empty extension and is its own filename part |
| PathInfo.StemAndExtensionOfName | nxt-cpt-media-importer.php:266 | a name stem.ext, with no '/' in it and no '.' in ext, has filename part stem and extension ext |
| PathInfo.BasenameOfJoinedPath | nxt-cpt-media-importer.php:251 | the basename of directory/name is name, whatever the directory |
| AltText.WordRun | nxt-cpt-media-importer.php:268 | the length of the leading run of word characters: all before it are word characters, the next one is not |
| AltText.SpaceRun | nxt-cpt-media-importer.php:269 | the length of the leading run of \s characters, maximal |
| AltText.DashesToSpaces | nxt-cpt-media-importer.php:267 | no ensures; AltTextWords.WordsOfDashesToSpaces states that the words are kept, and AltTextShape.AltTextHasNoDashOrUnderscore that no '-' or '_' survives in the normalised name |
| AltText.StripLogo | nxt-cpt-media-importer.php:268 | its own contract only says that no new character appears. Its exact output on every input is fixed by two lemmas: AltTextChars.StripLogoSplits (a non-word character stays in place and each side is handled on its own) and AltTextChars.StripLogoOfWord (a single word goes exactly when it spells "logo"). AltTextWords.WordsOfStripLogo and AltTextChars.StripLogoKeepsNonWordChars state the resulting words and non-word characters |
| AltText.CollapseWhitespace | nxt-cpt-media-importer.php:269 | its own contract: the result is single-spaced (all white space is ' ', never two in a row), adds no character but ' ', and begins with the input's first character or with a space for leading white space. The exact output, one ' ' per maximal run of \s with everything else kept in order, is AltTextChars.CollapseWhitespaceSqueezes |
| AltText.LeadingTrimmable | nxt-cpt-media-importer.php:270 | how many characters trim removes in front: all of them are trimmable and the next one is not |
| AltText.TrailingTrimmable | nxt-cpt-media-importer.php:270 | how many characters trim removes behind: all of them are trimmable and the one before them is not |
| AltText.Trim | nxt-cpt-media-importer.php:270 | the result is the slice s[a..b] of the input, where every character before a and from b on is trimmable and neither end of the result is trimmable. So exactly the leading and trailing trimmable characters are removed and nothing else. Also: no new character appears, and single spacing is kept |
| AltText.UcWords | nxt-cpt-media-importer.php:271 | no ensures; AltTextWords.LowerOfUcWords, AltTextShape.UcWordsOfLowerIsTitleCasedAt and AltTextShape.CaseKeepsSpacing state what ucwords(strtolower(t)) is |
| AltText.GenerateAltText | nxt-cpt-media-importer.php:265-273 | no ensures; its properties are lemmas: AltTextWords.AltTextWordsAreStemWordsWithoutLogo (its words), AltTextWords.NoWholeWordLogoSurvives, AltTextShape.AltTextIsSingleSpacedAndTrimmed, AltTextShape.AltTextIsTitleCased and AltTextPlain.AltTextOfPlainName (its exact value for plain names) |
| AltText.GeneratePostTitle | nxt-cpt-media-importer.php:275-277 | the post title is always the alternative text |
| AltTextChars.StripLogoSplits | nxt-cpt-media-importer.php:268 | a non-word character c stays where it is: StripLogo(x + [c] + y) is StripLogo(x), then c, then StripLogo(y) |
| AltTextChars.StripLogoOfWord | nxt-cpt-media-importer.php:268 | a non-empty run of word characters is removed exactly when it spells "logo" in any case, and otherwise kept whole |
| AltTextChars.StripLogoKeepsNonWordChars | nxt-cpt-media-importer.php:268 | deleting whole-word "logo" keeps every character that is not a word character, in order, and adds none |
| AltTextChars.CollapseWhitespaceSqueezes | nxt-cpt-media-importer.php:269 | collapsing white space equals a character-by-character reference: a \s right after a \s is dropped, any other \s becomes ' ', and every other character stays. So each maximal run of \s becomes exactly one ' ' |
| AltTextChars.CollapseWhitespaceKeepsNonSpace | nxt-cpt-media-importer.php:269 | collapsing white space keeps the characters that are not white space, in order, and adds none |
| AltTextWords.DropLogos | nxt-cpt-media-importer.php:268 | every word kept was in the input and does not spell "logo" |
| AltTextWords.WordsOfDashesToSpaces | nxt-cpt-media-importer.php:267 | turning '-' and '_' into spaces keeps the words |
| AltTextWords.WordsOfStripLogo | nxt-cpt-media-importer.php:268 | the words after deleting whole-word "logo" are the words before minus exactly those that spell "logo", in order |
| AltTextWords.WordsOfCollapseWhitespace | nxt-cpt-media-importer.php:269 | collapsing white space keeps the words |
| AltTextWords.WordsOfTrim | nxt-cpt-media-importer.php:270 | trimming keeps the words |
| AltTextWords.LowerAllDropLogos | nxt-cpt-media-importer.php:268 | dropping logos commutes with lower-casing, since /i matches any case |
| AltTextWords.LowerOfUcWords | nxt-cpt-media-importer.php:271 | ucwords after strtolower changes nothing but letter case |
| AltTextWords.WordsOfCleanedStem | nxt-cpt-media-importer.php:266-270 | before letter case changes, the cleaned name has the stem's words minus the logos |
| AltTextWords.AltTextWordsAreStemWordsWithoutLogo | nxt-cpt-media-importer.php:265-273 | up to letter case, the normalised name's words are those of the basename without its extension, in order, minus every word spelling "logo" |
| AltTextWords.WholeWordIsAWord | nxt-cpt-media-importer.php:268 | four word characters bounded by non-word characters or the ends form one of the words |
| AltTextWords.WholeWordLogoIsAWord | nxt-cpt-media-importer.php:268 | a place where /\blogo\b/i would match gives the word "logo" among the lower-cased words |
| AltTextWords.NoWholeWordLogoSurvives | nxt-cpt-media-importer.php:268 | no position of the normalised name holds a whole word "logo" in any case |
| AltTextShape.AltTextHasNoDashOrUnderscore | nxt-cpt-media-importer.php:267 | the normalised name contains no '-' and no '_' |
| AltTextShape.CaseKeepsSpacing | nxt-cpt-media-importer.php:271 | changing letter case keeps single spacing, trimmed ends and every space position |
| AltTextShape.AltTextIsSingleSpacedAndTrimmed | nxt-cpt-media-importer.php:269-271 | the normalised name's only white space is single spaces and neither end is trimmable |
| AltTextShape.UcWordsOfLowerIsTitleCasedAt | nxt-cpt-media-importer.php:271 | in ucwords(strtolower(t)) a character starting a word is not lower-case and every other character is not upper-case |
| AltTextShape.UcWordsOfLowerIsTitleCased | nxt-cpt-media-importer.php:271 | the same at every position |
| AltTextShape.AltTextIsTitleCased | nxt-cpt-media-importer.php:265-273 | every space-separated word of the normalised name starts with a non-lower-case character and has no upper-case letter after it |
| AltTextPlain.WordsOfWord | nxt-cpt-media-importer.php:268 | a run of word characters is one word |
| AltTextPlain.WordsOfWordThen | nxt-cpt-media-importer.php:267 | a word followed by a separator and more text is that word, then the words of the rest |
| AltTextPlain.CanonicalIsJoinOfWords | nxt-cpt-media-importer.php:269-270 | a string of words with single inner spaces is its words joined by single spaces |
| AltTextPlain.CleanedPlainStemIsCanonical | nxt-cpt-media-importer.php:267-270 | a stem of word characters, '-', '_' and white space cleans up to words with single inner spaces |
| AltTextPlain.AltTextOfPlainName | nxt-cpt-media-importer.php:265-273 | for such a stem the normalised name is exactly its non-logo words, joined by single spaces, lower-cased and capitalised |
| AltTextExamples.OneWordName | nxt-cpt-media-importer.php:265-273 | the normalised name of word.ext |
| AltTextExamples.TwoWordName | nxt-cpt-media-importer.php:265-273 | the normalised name of two words and a separator, with an extension |
| AltTextExamples.ThreeWordName | nxt-cpt-media-importer.php:265-273 | the normalised name of three words and two separators, with an extension |
| AltTextExamples.AudiLogo | templates/admin-page.php:83 | Audi-Logo.svg gives "Audi" |
| AltTextExamples.BmwCorporateLogo | templates/admin-page.php:84 | BMW_corporate-logo.png gives "Bmw Corporate" |
| AltTextExamples.MicrosoftLogo2024 | templates/admin-page.php:85 | microsoft-logo-2024.jpg gives "Microsoft 2024" |
| AltTextExamples.LogotypeIsKept | nxt-cpt-media-importer.php:268 | only the whole word is removed: acme-logotype.png gives "Acme Logotype" |
| AltTextExamples.LogoAloneIsEmpty | nxt-cpt-media-importer.php:265-273 | logo.png normalises to the empty string; nothing guards against that |
| WordPress.FirstMatch | nxt-cpt-media-importer.php:179 | the lowest id in range of a post with that exact title and type, or none when there is no such post in range |
| WordPress.FindByTitle | nxt-cpt-media-importer.php:179 | get_page_by_title finds a post of the title and type, the lowest-id one, and finds none exactly when no post matches |
| WordPress.Sideload | nxt-cpt-media-importer.php:189 | media_handle_sideload either adds exactly one attachment under a fresh nonzero id, with no alternative text, or changes no post or attachment |
| WordPress.SetAlt | nxt-cpt-media-importer.php:199 | update_post_meta sets the alternative text of that attachment and changes nothing else |
| WordPress.InsertPost | nxt-cpt-media-importer.php:201-205 | wp_insert_post either adds exactly one published post of the title and type under a fresh nonzero id, or changes no post |
| WordPress.ClearThumbnail | nxt-cpt-media-importer.php:208 | the same posts; a post that showed the deleted attachment loses only its featured image, and every other post is untouched |
| WordPress.DeleteAttachment | nxt-cpt-media-importer.php:208 | wp_delete_attachment removes the attachment, and the posts change only by ClearThumbnail: each featured-image link to it is dropped and nothing else about any post changes |
| WordPress.SetThumbnail | nxt-cpt-media-importer.php:216 | set_post_thumbnail links the attachment when both the post and the attachment exist, and changes nothing otherwise |
| WordPress.Store.GetPageByTitle | nxt-cpt-media-importer.php:179 | the host call answers as FindByTitle on the store |
| WordPress.Store.MediaHandleSideload | nxt-cpt-media-importer.php:189 | the store changes as Sideload says and stays consistent |
| WordPress.Store.UpdateAltText | nxt-cpt-media-importer.php:199 | the store changes as SetAlt says and stays consistent |
| WordPress.Store.WpInsertPost | nxt-cpt-media-importer.php:201-205 | the store changes as InsertPost says and stays consistent |
| WordPress.Store.WpDeleteAttachment | nxt-cpt-media-importer.php:208 | the store changes as DeleteAttachment says and stays consistent |
| WordPress.Store.SetPostThumbnail | nxt-cpt-media-importer.php:216 | the store changes as SetThumbnail says and stays consistent |
| Importer.ImportNamed | nxt-cpt-media-importer.php:179-225 | import_single_file's duplicate check, sideload, alternative text, insert with rollback and featured image keep the store consistent, and the result names the file; which path is taken is stated by ImporterProperties.NamedImportedIffAccepted, NamedSideloadRejected and NamedInsertRejected, and what each path does to the store by the other ImporterProperties.Named* lemmas |
| Importer.ImportOne | nxt-cpt-media-importer.php:174-177 | import_single_file imports under the file's normalised name; the store stays consistent and the result names the file |
| Importer.RollbackRestoresStore | nxt-cpt-media-importer.php:207-214 | deleting the attachment the import just added restores the posts and attachments as they were |
| Importer.ImportSingleFile | nxt-cpt-media-importer.php:174-226 | the sequence of host calls leaves the store, and returns the result, that ImportOne gives |
| Importer.ProcessItem | nxt-cpt-media-importer.php:150-168 | an upload error gives "Upload error: " and the code, with the store unchanged; a clean upload gives exactly ImportOne of its name; the result names the file |
| Importer.ProcessAll | nxt-cpt-media-importer.php:132-172 | one result per upload, and the store stays consistent; the content of each result is stated by ImporterProperties.ProcessAllResults |
| Importer.ProcessAllSnoc | nxt-cpt-media-importer.php:149-169 | one more upload continues from the store the shorter batch left and appends its one result |
| Importer.ProcessUploads | nxt-cpt-media-importer.php:132-172 | the loop leaves the store, and returns the results, that ProcessAll gives for the whole batch |
| Importer.Wanted | nxt-cpt-media-importer.php:241-248 | no ensures; a regular file whose lower-cased extension is in the allowed list. ImporterProperties.DirectoryUploadsAreWantedFiles states how it selects the uploads |
| Importer.EntryUploads | nxt-cpt-media-importer.php:241-256 | no ensures; ImporterProperties.DirectoryUploadsAreWantedFiles states what it yields |
| Importer.DirectoryUploads | nxt-cpt-media-importer.php:240-256 | no ensures; ImporterProperties.DirectoryUploadsAreWantedFiles and Importer.DirectoryUploadsSnoc state which uploads it yields, in order |
| Importer.DirectoryUploadsSnoc | nxt-cpt-media-importer.php:240-260 | one more listed entry adds its upload exactly when it is a wanted file |
| Importer.ProcessAllAppend | nxt-cpt-media-importer.php:149-169 | processing two batches one after the other is processing their concatenation |
| Importer.ListedStep | nxt-cpt-media-importer.php:240-260 | one more listed entry continues the directory import from where the shorter listing left off |
| Importer.ImportEntry | nxt-cpt-media-importer.php:241-259 | skipping a non-file or a disallowed extension changes nothing; a wanted file is imported under its basename with error code 0 |
| Importer.ImportListed | nxt-cpt-media-importer.php:240-262 | the loop leaves the store, and returns the results, of processing the wanted files in listing order |
| Importer.ImportFromDirectory | nxt-cpt-media-importer.php:228-263 | a path that is not a directory gives "Directory does not exist: " and the path, with the store unchanged; otherwise the results of importing the wanted files in listing order |
| Importer.Successes | nxt-cpt-media-importer.php:102 | array_filter keeps at most as many results as it is given; which ones it keeps is ImporterProperties.SuccessesAreTheImported |
| Importer.ImportBatch | nxt-cpt-media-importer.php:93-103 | no uploads gives "No files uploaded" and changes nothing; otherwise total is the number of uploads and successful is the number of successes among the results |
| Batch.Run | nxt-cpt-media-importer.php:149-169 | a foreach over the items that carries the store from one item to the next gives one result per item; Batch.RunAt, Batch.RunAppend and Batch.RunSkips state the rest |
| Batch.RunAt | nxt-cpt-media-importer.php:149-169 | the result at position i of a loop run comes from item i, in the state the first i items left |
| Batch.RunSkips | nxt-cpt-media-importer.php:150-157 | items that leave the state alone can be dropped without changing the final state |
| Batch.RunAppend | nxt-cpt-media-importer.php:149-169 | running two batches one after the other is running their concatenation |
| ImporterProperties.NamedDuplicateIsRefused | nxt-cpt-media-importer.php:179-187 | a failure that names an existing post happens exactly when a post of the title and type exists; then the result is "Post already exists: " and the title, with that post's id, and the store is unchanged |
| ImporterProperties.NamedFailureLeavesNothingBehind | nxt-cpt-media-importer.php:179-214 | every failure, whichever step it comes from, leaves the posts and attachments as they were |
| ImporterProperties.NamedImportedIffAccepted | nxt-cpt-media-importer.php:179-225 | a file is imported if and only if no post of the title and type exists and the host accepts both the sideload and the post insert |
| ImporterProperties.NamedSideloadRejected | nxt-cpt-media-importer.php:189-197 | a sideload the host rejects gives a failure with the host's message and no post id |
| ImporterProperties.NamedInsertRejected | nxt-cpt-media-importer.php:201-214 | a post insert the host rejects after an accepted sideload gives a failure with the host's message and no post id, as the code intends (see Findings) |
| ImporterProperties.NamedSuccessShape | nxt-cpt-media-importer.php:199-225 | a success adds exactly one published post of the type and title, showing exactly one new attachment, which carries the alternative text; both ids are fresh and nonzero |
| ImporterProperties.NamedSecondImportIsDuplicate | nxt-cpt-media-importer.php:179-187 | after a successful import, importing another file of the same title is refused, naming the post just created, and changes nothing |
| ImporterProperties.DuplicateIsRefused | nxt-cpt-media-importer.php:174-187 | import_single_file refuses a file whose normalised name is already a title of the type, reporting that post and changing nothing; otherwise no failure names an existing post |
| ImporterProperties.FailureLeavesNothingBehind | nxt-cpt-media-importer.php:174-214 | a failed import_single_file leaves the posts and attachments as they were |
| ImporterProperties.ImportedIffAccepted | nxt-cpt-media-importer.php:174-225 | import_single_file imports if and only if the normalised name is not yet a post title of the type and the host accepts both calls |
| ImporterProperties.SideloadRejected | nxt-cpt-media-importer.php:174-197 | import_single_file reports a rejected sideload with the host's message and no post id |
| ImporterProperties.InsertRejected | nxt-cpt-media-importer.php:174-214 | import_single_file reports a rejected post insert with the host's message and no post id |
| ImporterProperties.SuccessShape | nxt-cpt-media-importer.php:174-225 | a successful import_single_file has post title equal to alternative text, both the normalised name, and adds exactly the one post and the one attachment |
| ImporterProperties.SecondImportIsDuplicate | nxt-cpt-media-importer.php:174-187 | importing the same file twice: the second import is refused with the first one's post and changes nothing |
| ImporterProperties.ProcessAllResultAt | nxt-cpt-media-importer.php:149-168 | the result at position i names upload i; for an upload error it is exactly the upload-error failure; for a clean upload it is ImportOne of its name in the store the uploads before it left |
| ImporterProperties.ProcessAllResults | nxt-cpt-media-importer.php:132-172 | one result per upload, in order, each naming its file, and every upload error reported with its code |
| ImporterProperties.UploadErrorsNeverReachStore | nxt-cpt-media-importer.php:150-157 | the store ends as if only the uploads without an error had been sent |
| ImporterProperties.DirectoryUploadsAreWantedFiles | nxt-cpt-media-importer.php:240-256 | a file reaches import_single_file exactly when some listed entry is a regular file with an allowed lower-cased extension, under its basename and with error code 0 |
| ImporterProperties.SuccessesAppend | nxt-cpt-media-importer.php:102 | the successes of two runs of results are the successes of each, in order |
| ImporterProperties.SuccessesAreTheImported | nxt-cpt-media-importer.php:102 | a result is among the successes exactly when it is a result and a success |
| ImporterProperties.AllSucceededIffCountsAgree | nxt-cpt-media-importer.php:101-102 | successful equals total exactly when every file was imported |
| ImporterAsWritten.ImportNamedAsWritten | nxt-cpt-media-importer.php:201-216 | the import as written: a rejected insert yields post id 0 and the run carries on; the store stays consistent |
| ImporterAsWritten.AsWrittenAgreesWhenInsertAccepted | nxt-cpt-media-importer.php:201-216 | when the host accepts the insert, the as-written import and the rolled-back one agree |
| ImporterAsWritten.InsertFailureReportedAsSuccess | nxt-cpt-media-importer.php:201-216 | on a rejected insert the code as written reports success into post 0 and leaves an attachment that no post shows; the intended import reports the failure and leaves the store's posts and attachments as they were |

## Left out

- Host verdicts: whether WordPress accepts a sideload or a post insert is given by two plans of verdicts in the store, not derived from WordPress's own rules. Examples are `empty_content`, file type checks and upload limits.
- get_page_by_title is modelled as an exact title match within the post type over posts of every status, returning the lowest id. Database collation (case-insensitive matching) and status filtering are not part of this model.
- WordPress.FindByTitle: since WordPress 6.2, get_page_by_title runs a query ordered by post date and then id, so among several matching posts it returns the oldest, not necessarily the lowest id. The model returns the lowest id.
- WordPress.FindByTitle: since WordPress 6.2, an empty title is not applied as a filter, so get_page_by_title('') returns the oldest post of the type, if any. The model matches only posts whose title is empty. This matters for names that normalise to the empty string, such as `logo.png`.
- set_post_thumbnail is modelled as linking whenever the post and the attachment exist. Its check that the attachment is an image, and get_post(0) falling back to a global post, are not modelled.
- wp_delete_attachment is modelled as removing the attachment and every featured-image link to it. Files on disk, metadata and other references are not modelled.
- Upload error codes are integers. The strict `!==` comparison that would treat a string "0" as an error is not modelled.
- The `type`, `tmp_name` and `size` entries of an upload, `mime_content_type` and `filesize` are not modelled. Only the name and the error code reach the model.
- Filesystem probing (`is_dir`, `glob`, `is_file`) is replaced by inputs: a flag for "is a directory" and the listing as a sequence of entries, each with its path and an is-regular-file flag. Glob's sort order and hidden-file rules are left to whoever produces the listing.
- Importer.Wanted: `in_array` compares loosely, and the model uses exact string membership. In PHP 8, two numeric strings compare as numbers, so `in_array("01", ["1"])` holds. The two agree whenever no allowed extension is a numeric string. That is true of the default list (nxt-cpt-media-importer.php:228), the only one any caller passes (nxt-cpt-media-importer.php:305).
- The reshaping of a single-file upload into the array form (nxt-cpt-media-importer.php:135-143) is not modelled. Uploads are given directly as a sequence.
- `sanitize_text_field` on the post type, the nonce and capability checks, JSON, REST and WP-CLI output, menus, assets and page rendering are not modelled: they are host transport and UI.
- Non-ASCII text: names are sequences of characters with ASCII classes and case mappings. Multi-byte UTF-8 sequences, which PHP's byte-wise functions would see as several non-word bytes, are not modelled.
- Importer.ImportNamed: a rejected post insert is rolled back as the code evidently intends, not as written (see Findings). The as-written behaviour is ImporterAsWritten.ImportNamedAsWritten.

## Findings

| source | as written | input that shows it | evidently intended | confidence | as-written member | corrected member |
|---|---|---|---|---|---|---|
| nxt-cpt-media-importer.php:201-214 | `wp_insert_post` is called without its `$wp_error` argument, so a rejected insert returns 0, not a `WP_Error`. `is_wp_error` never fires, the attachment is not deleted, `set_post_thumbnail(0, …)` finds no post, and the file is reported as imported into post 0. | `logo.png` imported into post type `post` when no post of that type exists yet. It normalises to the empty title (AltTextExamples.LogoAloneIsEmpty), so get_page_by_title finds nothing, and WordPress refuses a post whose title, content and excerpt are all empty (`empty_content`). Any other rejection by wp_insert_post, such as `db_insert_error`, takes the same path. The model takes the rejection as the host's verdict. | The rejected insert is reported as a failure with the host's message, and the new attachment is deleted, so no post or attachment is left behind. | high that the rollback is dead code; not executed | ImporterAsWritten.InsertFailureReportedAsSuccess | ImporterProperties.NamedFailureLeavesNothingBehind |

The code shows the intent: it checks `is_wp_error($post_id)` and then calls `wp_delete_attachment($attachment_id, true)` (nxt-cpt-media-importer.php:207-208). That delete removes the attachment the import just added, and nothing else in the import undoes a step. As written, the check never fires, so both behaviours are kept:
- the as-written path is modelled exactly, in ImporterAsWritten;
- the rest of the model uses the intended rollback.
