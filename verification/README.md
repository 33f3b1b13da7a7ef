# ShelfTalk AI: a Dafny model of its deterministic core

ShelfTalk AI is a NestJS back end with a Next.js front end. It stores a
seller's products and asks a language model for marketing copy: an SEO
title, a long description, tags and four social-media captions. This
project models the parts of the system that are fixed logic and proves
properties about them. The model calls themselves are oracles.

- **Text shaping in the AI layer**: the vision pipeline's fallback record,
  code-fence cleanup, response-text extraction, MIME lookup and the
  analysis formatter (`vision.dfy`). Also the title pipeline's whitespace
  collapsing (`title.dfy`), the tags pipeline's comma normalisation
  (`tags.dfy`), and the social-post prompt with its per-channel style guide
  (`social.dfy`). JavaScript's `\s` is `Text.IsWs`. The trim, split, join
  and `path.extname` helpers are in `text.dfy`. Model responses are in
  `chat.dfy`.
- **The store and its access rules**: `store.dfy` holds the users, products
  and generations tables. A counter hands out fresh ids and a clock stamps
  rows. `Store.Valid` is the invariant that every operation keeps. On top
  of the store: `products.dfy` has the service, the controller (owner
  stamping, image URL, 404 before 403) and the framework's request order
  (JWT guard, upload interceptor, body validation, handler).
  `generations.dfy` has the seven-call, all-or-nothing generation and the
  read routes. `auth.dfy` has registration and login. Hashing, comparison,
  signing and verification are function parameters.
- **Input validation**: `dto.dfy` interprets class-validator's decorators
  the way the global `ValidationPipe` applies them. That pipe runs with
  whitelist, forbidNonWhitelisted and transform, and without implicit
  conversion. Each request class also gets an independent reference
  predicate and a lemma that the two agree. Also modelled: the server's
  upload policy (`upload.dfy`), the client-side image picker
  (`image_upload.dfy`) and the breadcrumb trail (`breadcrumb.dfy`).

Errors are `Wrappers.Error` values named after the HTTP exception each one
stands for. A runtime `Error`, a `TypeError` or a database error becomes
`Internal` with the message it carries. The framework answers all of these
with status 500.

Two consequences of the code as written are worth knowing. Both are
modelled as the code behaves:

- `@MaxLength(255)` counts a name without the variation selectors U+FE0E
  and U+FE0F. The `varchar(255)` column counts every character: PostgreSQL
  refuses a longer value unless everything past the 255th character is
  spaces, which it cuts off (`Products.ColumnName`). So a name of 255
  letters plus one selector passes validation, then fails at the insert
  with 500 (`Products.SelectorNameOverflowsColumn`). A name of 254 letters,
  a selector and a space passes too, and is stored without the space
  (`Products.SpacePaddedNameStored`).
- The update request declares `name` as optional, and `@IsOptional` lets
  `null` through. The column is `NOT NULL`, so `{"name": null}` fails in
  the database with 500. The update request has no length check either,
  so a name over 255 characters fails the same way unless its excess is
  all spaces; then it is stored cut to 255 characters
  (`Products.SpacePaddedRenameStored`).

Where the source files disagree, each function follows its own code,
except in three places where the model follows the evident intent
instead: `Auth.Register`, the `imageUrl` field of `Store.Product` and the
AI calls of `Generations.GenerateAll`.

- `auth.service.ts` calls `usersService.create(name, email, hash)`.
  `users.service.ts` declares `create({ email, passwordHash })`.
  `Auth.Register` follows the caller's evident intent: it stores email,
  name and hash.
- `product.entity.ts` declares no `imageUrl` column. The products service
  and controller read and write `imageUrl`, so `Store.Product` has it.
- `generations.service.ts` calls `aiService.generateTitle`,
  `generateLongDescription`, `generateTags` and `generateSocial`
  (`generations.service.ts:61-100`). `ai.service.ts` defines none of them;
  it has only `previewLongDescription`, `previewTitle`, `previewTags` and
  `previewSocialPost`. As written, every generate-all request that passes
  the ownership check therefore throws a `TypeError` while the
  `Promise.all` argument list is built, and the answer is 500. The model
  follows the evident intent instead: the seven calls are values of the
  `Generations.AiCall` oracle, which stands in for those four methods.
- The `SocialChannel` type in `ai-pipeline.types.ts` (instagram, tiktok,
  threads, linkedin) differs from the `SocialPostInput` channel list in the
  same file (instagram, tiktok, facebook, pinterest). The social pipeline is
  modelled on any channel string; its `switch` defaults unknown channels.

## Model

| member | source | states |
|---|---|---|
| Text.Trim | backend/src/ai/pipelines/title.pipeline.ts:60 | `trim()` leaves no JavaScript whitespace at either end |
| Text.TrimDropsOnlyWs | backend/src/ai/pipelines/title.pipeline.ts:60 | everything `trim()` drops, at either end, is whitespace |
| Text.TrimOfTrimmed | backend/src/ai/pipelines/title.pipeline.ts:60 | trimming already trimmed text changes nothing |
| Text.ExtName | backend/src/config/multer.config.ts:20 | `path.extname` is a proper suffix of the base name that starts with a dot and holds no further dot or slash; it is empty exactly when the base name is ".." or has no dot after its first character |
| Text.ExtNameLastDot | backend/src/config/multer.config.ts:20 | Node's rule: with `k` the last dot of the base name, the extension is the suffix from `k` when `k` is at least 1 and the name is not "..", and empty otherwise |
| Text.ExtNameOfStemAndExt | backend/src/config/multer.config.ts:20 | appending an extension to a plain stem makes `extname` return that extension |
| VisionAnalysis.AnalyzeImage | backend/src/ai/pipelines/vision-analysis.pipeline.ts:58-135 | never fails; an unreadable file, a failing model call or an unparsable answer gives the fallback; otherwise the result is exactly the parse of the fence-cleaned text of the answer to the file's request |
| VisionAnalysis.PlainAnswerParsed | backend/src/ai/pipelines/vision-analysis.pipeline.ts:101-118 | a plain-text answer without fences that parses is returned as that parse of its trimmed text |
| VisionAnalysis.ModelFailureGivesFallback | backend/src/ai/pipelines/vision-analysis.pipeline.ts:118-134 | a failing model call yields exactly the fallback record |
| VisionAnalysis.FirstTextBlock | backend/src/ai/pipelines/vision-analysis.pipeline.ts:148-159 | finds the first block with a string `text`; no earlier block has one |
| VisionAnalysis.ExtractText | backend/src/ai/pipelines/vision-analysis.pipeline.ts:139-173 | a string comes back unchanged, an array gives its first text block, an object its string `text`, anything else its serialisation |
| VisionAnalysis.LaterBlocksIgnored | backend/src/ai/pipelines/vision-analysis.pipeline.ts:148-158 | blocks after the first text-bearing one never change the result |
| VisionAnalysis.CleanFencesFree | backend/src/ai/pipelines/vision-analysis.pipeline.ts:105-108 | no three-backtick marker survives the cleanup |
| VisionAnalysis.CleanFencesOfFreeText | backend/src/ai/pipelines/vision-analysis.pipeline.ts:105-108 | on text without a marker the cleanup is a plain trim |
| VisionAnalysis.StripFenceFree | backend/src/ai/pipelines/vision-analysis.pipeline.ts:107 | one global replace of the marker leaves no marker behind, even where removals join backticks |
| VisionAnalysis.GetMimeType | backend/src/ai/pipelines/vision-analysis.pipeline.ts:176-186 | one of four image types; png, gif and webp exactly for their lower-cased extensions; JPEG otherwise |
| VisionAnalysis.MimeTypeIgnoresCase | backend/src/ai/pipelines/vision-analysis.pipeline.ts:177 | paths that differ only in letter case get the same type |
| VisionAnalysis.PromptLines | backend/src/ai/pipelines/vision-analysis.pipeline.ts:191-216 | exactly the informative lines are emitted (not the placeholders, not empty lists), in the fixed field order |
| VisionAnalysis.FallbackLines | backend/src/ai/pipelines/vision-analysis.pipeline.ts:127-134 | of the fallback record only the description line is printed |
| VisionAnalysis.FormatDescriptionOnly | backend/src/ai/pipelines/vision-analysis.pipeline.ts:214-218 | a record with only a description renders as the newline-prefixed description line |
| VisionAnalysis.FormatFallback | backend/src/ai/pipelines/vision-analysis.pipeline.ts:191-219 | formatting the fallback gives exactly the newline and "Descrição visual: Análise visual não disponível" |
| TitlePipeline.TitlePromptDefaults | backend/src/ai/pipelines/title.pipeline.ts:26-54 | a missing description, length limit or marketplace gives the same prompt as "", 80 and "generic" |
| TitlePipeline.HumanMessageLines | backend/src/ai/pipelines/title.pipeline.ts:38-45 | with single-line values the human message reads back as its three labelled lines |
| TitlePipeline.SystemMessageInjective | backend/src/ai/pipelines/title.pipeline.ts:26-36 | different length limits give different system instructions |
| TitlePipeline.CollapseSpaced | backend/src/ai/pipelines/title.pipeline.ts:60 | the `\s+` to space replacement leaves only single plain spaces and never grows the text |
| TitlePipeline.CollapseWords | backend/src/ai/pipelines/title.pipeline.ts:60 | the replacement is the input's words joined by single spaces, with one space in front when the input starts with whitespace and one behind when it ends with whitespace |
| TitlePipeline.CollapseVisible | backend/src/ai/pipelines/title.pipeline.ts:60 | collapsing keeps every non-whitespace character, in order |
| TitlePipeline.NormalizeTitle | backend/src/ai/pipelines/title.pipeline.ts:60 | the normalised title is the input's words joined by single spaces; so it is trimmed, single-spaced and has the input's non-whitespace characters in order |
| TitlePipeline.NormalizeTitleWords | backend/src/ai/pipelines/title.pipeline.ts:60 | replacing then trimming gives exactly the words joined by single spaces |
| TitlePipeline.NormalizeTitleSplit | backend/src/ai/pipelines/title.pipeline.ts:60 | splitting a normalised non-blank title at its spaces gives back the input's words, so no space between words is lost |
| TitlePipeline.NormalizeTitleIdempotent | backend/src/ai/pipelines/title.pipeline.ts:60 | normalising twice is normalising once |
| TitlePipeline.Run | backend/src/ai/pipelines/title.pipeline.ts:56-64 | succeeds exactly for a model answer with string text and returns that text's words joined by single spaces; model errors propagate |
| TitlePipeline.TitleNotTruncated | backend/src/ai/pipelines/title.pipeline.ts:59-64 | an already normal title comes back whole, however long |
| TitlePipeline.MaxLengthOnlyInstructs | backend/src/ai/pipelines/title.pipeline.ts:26-35 | `maxLength` changes only the system instruction, never the human message or the post-processing |
| TagsPipeline.TagsPromptDefaults | backend/src/ai/pipelines/tags.pipeline.ts:26-51 | a missing description is "" and a missing count is 10 |
| TagsPipeline.CommaSpacing | backend/src/ai/pipelines/tags.pipeline.ts:57 | the `\s*,\s*` replacement starts with a comma exactly when the input's first non-blank run is a comma |
| TagsPipeline.CommaSpacingReference | backend/src/ai/pipelines/tags.pipeline.ts:57 | the replacement equals the piece-wise reading: split at the commas, trim each piece's end unless it is last and its start unless it is first, join with ", " |
| TagsPipeline.SpacedPiecesNoComma | backend/src/ai/pipelines/tags.pipeline.ts:57 | without a comma the piece-wise reading is the input unchanged |
| TagsPipeline.CommaSpacingAtComma | backend/src/ai/pipelines/tags.pipeline.ts:57 | at the first comma the replacement drops the whitespace before and after it and writes ", " |
| TagsPipeline.CommaSpacingCommasSpaced | backend/src/ai/pipelines/tags.pipeline.ts:57 | after the replacement every comma but a final one is followed by exactly one space |
| TagsPipeline.CommaSpacingSpaceRule | backend/src/ai/pipelines/tags.pipeline.ts:57 | whitespace before a comma only occurs as the space inserted after a preceding comma |
| TagsPipeline.CommaSpacingVisible | backend/src/ai/pipelines/tags.pipeline.ts:57 | the replacement keeps every non-whitespace character (commas included, so their number) in order |
| TagsPipeline.NormalizeTags | backend/src/ai/pipelines/tags.pipeline.ts:57 | the normalised tags are the trimmed piece-wise reading, so only whitespace next to a comma or at the ends is touched; they are comma-spaced, keep the non-whitespace characters in order and obey the space rule |
| TagsPipeline.NormalizeTagsNoComma | backend/src/ai/pipelines/tags.pipeline.ts:57 | text without commas is only trimmed |
| TagsPipeline.NormalizeTagsIdempotent | backend/src/ai/pipelines/tags.pipeline.ts:57 | normalising twice is normalising once |
| TagsPipeline.Run | backend/src/ai/pipelines/tags.pipeline.ts:53-61 | succeeds exactly for a string answer and returns its trimmed piece-wise reading; model errors propagate |
| TagsPipeline.MaxTagsOnlyInstructs | backend/src/ai/pipelines/tags.pipeline.ts:26-34 | `maxTags` changes only the instruction; the output tag count is not enforced |
| SocialPostPipeline.StyleGuide | backend/src/ai/pipelines/social-post.pipeline.ts:33-53 | the guide is one of the four channel guides or the neutral one |
| SocialPostPipeline.StyleGuideOfChannel | backend/src/ai/pipelines/social-post.pipeline.ts:34-50 | each supported channel selects its own guide |
| SocialPostPipeline.GuidesDistinct | backend/src/ai/pipelines/social-post.pipeline.ts:36-52 | the four guides are pairwise distinct and differ from the neutral one |
| SocialPostPipeline.StyleGuideDefault | backend/src/ai/pipelines/social-post.pipeline.ts:51-53 | a channel gets "Tom neutro e profissional." exactly when it is none of the four |
| SocialPostPipeline.StyleGuideInjective | backend/src/ai/pipelines/social-post.pipeline.ts:34-50 | two supported channels with the same guide are the same channel |
| SocialPostPipeline.SocialPromptDefaults | backend/src/ai/pipelines/social-post.pipeline.ts:30-88 | a missing tone renders as "neutro" and a missing description as "" |
| SocialPostPipeline.SystemMessageShape | backend/src/ai/pipelines/social-post.pipeline.ts:59-65 | the system prompt is the five sentences joined by single spaces, the tone sentence third and the guide fourth |
| SocialPostPipeline.SystemMessageTone | backend/src/ai/pipelines/social-post.pipeline.ts:62 | the system prompt determines the tone |
| SocialPostPipeline.SystemMessageChannel | backend/src/ai/pipelines/social-post.pipeline.ts:59-65 | the system prompt determines which of the four channels was asked for |
| SocialPostPipeline.HumanMessageShape | backend/src/ai/pipelines/social-post.pipeline.ts:69-76 | the human message is channel, name, description, a blank line and the instruction, joined by line feeds |
| SocialPostPipeline.HumanMessageLines | backend/src/ai/pipelines/social-post.pipeline.ts:69-76 | with single-line values the first four lines read back exactly, the fourth blank |
| SocialPostPipeline.Run | backend/src/ai/pipelines/social-post.pipeline.ts:91-96 | succeeds exactly when the model does; model errors propagate |
| SocialPostPipeline.SocialTextVerbatim | backend/src/ai/pipelines/social-post.pipeline.ts:91-96 | the model's text comes back with no post-processing |
| Dto.Validate | backend/src/main.ts:30-34 | a body is accepted exactly when it has no undeclared property and every declared field passes; it is returned as it is; otherwise 400 |
| Dto.UndeclaredRejected | backend/src/main.ts:31-32 | an undeclared property always fails validation |
| Dto.CreateProductSchemaMeaning | backend/src/products/dto/create-product.dto.ts:8-20 | the create rules accept exactly: a non-empty string name of at most 255 counted characters, an optional string description, nothing else |
| Dto.ParseCreateProduct | backend/src/products/dto/create-product.dto.ts:9-16 | a valid body yields its name and description; anything else is 400 |
| Dto.CreateRejectsImageUrlAndOwner | backend/src/products/dto/create-product.dto.ts:18-19 | a create body carrying `imageUrl` or `ownerId` is refused |
| Dto.UpdateProductSchemaMeaning | backend/src/products/dto/update-product.dto.ts:10-22 | the update rules accept exactly: optional string name, description and imageUrl, nothing else |
| Dto.ParseUpdateProduct | backend/src/products/dto/update-product.dto.ts:11-21 | each field is left alone exactly when the body omits it, cleared exactly when the body gives null, and otherwise set to the body's string |
| Dto.CreateBodyIsUpdateBody | backend/src/products/dto/update-product.dto.ts:10-22 | every valid create body is a valid update body |
| Dto.UpdateLooserThanCreate | backend/src/products/dto/update-product.dto.ts:11-13 | the empty body and any string name are valid updates; create needs a non-empty name within 255 |
| Dto.TitleSchemaMeaning | backend/src/ai/dto/generate-title.dto.ts:8-24 | the title rules accept exactly the bodies of the reference reading |
| Dto.ParseTitle | backend/src/ai/dto/generate-title.dto.ts:9-23 | a valid body gives its own name, description, maxLength and marketplace, each absent exactly when missing or null; maxLength is at least 20 and the marketplace one of the four |
| Dto.TitleAcceptsAnyName | backend/src/ai/dto/generate-title.dto.ts:9-10 | any string name, the empty one included, is accepted |
| Dto.TitleMaxLengthBound | backend/src/ai/dto/generate-title.dto.ts:16-19 | an integer maxLength is accepted exactly from 20 up |
| Dto.TitleMaxLengthNotConverted | backend/src/ai/dto/generate-title.dto.ts:17 | a numeric string or a fraction is not an integer length |
| Dto.TagsSchemaMeaning | backend/src/ai/dto/generate-tags.dto.ts:8-20 | the tags rules accept exactly the bodies of the reference reading |
| Dto.ParseTags | backend/src/ai/dto/generate-tags.dto.ts:9-19 | a valid body gives its own name, description and maxTags, each absent exactly when missing or null; maxTags is at least 1 |
| Dto.TagsMaxTagsBound | backend/src/ai/dto/generate-tags.dto.ts:16-19 | an integer maxTags is accepted exactly from 1 up |
| Dto.SocialSchemaMeaning | backend/src/ai/dto/generate-social-post.dto.ts:8-23 | the social rules accept exactly the bodies of the reference reading |
| Dto.ParseSocial | backend/src/ai/dto/generate-social-post.dto.ts:9-22 | a valid body gives its own non-empty name, its channel (one of the four) and its description and tone, each absent exactly when missing or null, the tone one of the four |
| Dto.SocialRequiredFields | backend/src/ai/dto/generate-social-post.dto.ts:9-18 | name and channel alone are valid exactly when the name is non-empty and the channel is one of the four |
| Upload.FileFilter | backend/src/config/multer.config.ts:25-48 | a file is accepted exactly when its MIME type is one of the five; a refusal is a 400 with the fixed message |
| Upload.MaxFileSizeValue | backend/src/config/multer.config.ts:50-52 | the limit is 5242880 bytes |
| Upload.StoredNameExtension | backend/src/config/multer.config.ts:19-22 | the stored name starts with the UUID and has the original extension, case kept |
| Upload.StoredNamesDistinct | backend/src/config/multer.config.ts:20 | different UUIDs of one length never give the same stored name |
| Upload.Accept | backend/src/config/multer.config.ts:12-53 | filter first (400), then size (413); an accepted file is stored under "./uploads/products" with the new name |
| Upload.SizeLimitBoundary | backend/src/config/multer.config.ts:50-52 | exactly 5 MiB passes, one byte more does not |
| ImageUploadWidget.HandleFileChange | frontend/src/components/ui/image-upload.tsx:23-53 | null clears and notifies null; a wrong type or oversize sets its message and keeps the preview; a good file becomes the preview and is passed on |
| ImageUploadWidget.HandleFileChangeDefault | frontend/src/components/ui/image-upload.tsx:13-17 | without `maxSizeMB` the limit is 5 MB: a file of an accepted type gets the size message exactly when it is larger than the server's 5 MiB, and is passed on exactly when it is within it and readable |
| ImageUploadWidget.DefaultPickerAgreesWithServer | frontend/src/components/products/product-edit-form.tsx:95-98 | the edit form's picker, which uses the default, passes a readable file on exactly when the server's upload policy accepts it |
| ImageUploadWidget.TooLargeInBytes | frontend/src/components/ui/image-upload.tsx:40-41 | the MiB division exceeds the limit exactly when the size exceeds the limit in bytes |
| ImageUploadWidget.LimitIsInclusive | frontend/src/components/ui/image-upload.tsx:39-44 | a file of exactly the limit sets no error |
| ImageUploadWidget.HandleClear | frontend/src/components/ui/image-upload.tsx:75-82 | preview and error reset, the parent gets null |
| ImageUploadWidget.ClearIsEmptySelection | frontend/src/components/ui/image-upload.tsx:26-30 | clearing does what selecting nothing does |
| ImageUploadWidget.DisplayImage | frontend/src/components/ui/image-upload.tsx:84 | the shown image is non-empty and is the preview or the current URL |
| ImageUploadWidget.DisplayPrefersPreview | frontend/src/components/ui/image-upload.tsx:84 | a preview wins; without one the current image shows; nothing shows only when both are empty |
| ImageUploadWidget.RejectionKeepsDisplay | frontend/src/components/ui/image-upload.tsx:32-44 | after a refused file the same image is still displayed |
| Breadcrumbs.Items | frontend/src/components/layout/breadcrumb.tsx:15-31 | hidden exactly on "/login" and "/register" prefixes; otherwise one or two items, Dashboard first, the others pointing at the path |
| Breadcrumbs.DetailPrefixesExclusive | frontend/src/components/layout/breadcrumb.tsx:25-31 | no path has both detail prefixes |
| Breadcrumbs.ItemsOfDetailPage | frontend/src/components/layout/breadcrumb.tsx:24-31 | a second item appears exactly on "/products/" and "/generations/" paths, with its label |
| Breadcrumbs.ProductListHasOnlyHome | frontend/src/components/layout/breadcrumb.tsx:25-27 | boundary example kept as documentation: "/products" without a trailing slash gives only Dashboard, the case `StartsWith(p, "/products/")` excludes |
| Breadcrumbs.Render | frontend/src/components/layout/breadcrumb.tsx:35-47 | the home link, then the later items, the last as plain text |
| Breadcrumbs.RenderedTrail | frontend/src/components/layout/breadcrumb.tsx:43-47 | a detail page shows the home link and its label as text; other pages the home link alone |
| Store.FindProduct | backend/src/products/products.service.ts:51-53 | the product with that id, or none exactly when no row has it |
| Store.FindStoredProduct | backend/src/products/products.service.ts:51-53 | in a valid store the lookup returns the stored row itself |
| Store.FindGeneration | backend/src/generations/generations.service.ts:138-143 | the generation with that id, or none exactly when no row has it |
| Store.FindUserByEmail | backend/src/users/users.service.ts:18-20 | a user with exactly that email, or none exactly when no row has it |
| Store.RequireUser | backend/src/products/products.controller.ts:28 | without an authenticated user the request is 401 |
| Products.OrNull | backend/src/products/products.service.ts:30-31 | an absent or empty string is stored as null, anything else as given |
| Products.Create | backend/src/products/products.service.ts:25-36 | adds one row with a fresh id, owner as given and the name as the column stores it, null for an empty description or image; fails with the column's error exactly when a character past the 255th is not a space; keeps the store valid |
| Products.FindAllByOwner | backend/src/products/products.service.ts:41-46 | exactly the rows with that owner |
| Products.ListingNewestFirst | backend/src/products/products.service.ts:41-46 | the listing is in strictly descending creation time |
| Products.UpdatedRow | backend/src/products/products.service.ts:64 | supplied columns change, omitted ones keep their values, null clears; a null name, or one with a non-space past the 255th character, is a database error; a space-padded name is stored cut to 255 |
| Products.Update | backend/src/products/products.service.ts:60-70 | returns the row read back after the write; an absent row is an error; other rows stay; the store stays valid |
| Products.Remove | backend/src/products/products.service.ts:75-77 | the row is gone, every other row is kept, its generations go with it, the store stays valid |
| Products.BaseUrl | backend/src/products/products.controller.ts:39-40 | APP_URL when set and non-empty, else localhost on PORT, else on 3001 |
| Products.ImageUrlNamesTheFile | backend/src/products/products.controller.ts:41-43 | different stored files get different URLs, and the URL is stored as it is |
| Products.UpdateData | backend/src/products/products.controller.ts:94-102 | the body passes through; a file replaces imageUrl with its URL |
| Products.Authorize | backend/src/products/products.controller.ts:61-69 | missing is 404 for anyone; another owner's product is 403 with the route's message; the owner gets the row |
| Products.CreateAction | backend/src/products/products.controller.ts:32-52 | the new product's owner is the caller and its image URL is the upload's or null; it succeeds exactly when the name fits the column, and stores the name as the column does |
| Products.ListAction | backend/src/products/products.controller.ts:54-57 | the caller sees exactly their own products |
| Products.GetAction | backend/src/products/products.controller.ts:59-72 | 404 before 403, then the stored row |
| Products.UpdateAction | backend/src/products/products.controller.ts:74-105 | 404 before 403, then the service update with the request's data |
| Products.DeleteAction | backend/src/products/products.controller.ts:107-123 | succeeds exactly for the owner, and then removes the row |
| Products.PostRoute | backend/src/products/products.controller.ts:32-37 | 401 first, then the upload's errors, then validation's 400; a valid request is exactly the create action on the parsed body and the stored upload, so the product belongs to the caller and has an image exactly when a file came |
| Products.PatchRoute | backend/src/products/products.controller.ts:74-80 | 401 first, then the upload's errors, then validation's 400; a valid request is exactly the update action on the path id, the parsed body and the stored upload |
| Products.ListRoute | backend/src/products/products.controller.ts:54-56 | 401 without a user; a signed-in caller gets exactly the list action's answer, their own products |
| Products.GetRoute | backend/src/products/products.controller.ts:59-60 | 401 without a user, else the get action |
| Products.DeleteRoute | backend/src/products/products.controller.ts:107-109 | 401 without a user, else the delete action |
| Products.MissingIsNotFound | backend/src/products/products.controller.ts:59-123 | get, update and delete of a missing id are 404 for any caller and body |
| Products.ForeignProductRefused | backend/src/products/products.controller.ts:67-120 | get, update and delete of another owner's product are 403, each with its message |
| Products.OwnerReadsOwnProduct | backend/src/products/products.controller.ts:67-71 | the owner reads the stored row unchanged |
| Products.CreatedProductIsPrivate | backend/src/products/products.controller.ts:45-57 | a new product appears in its creator's list, not in another user's, and another user's read is 403 |
| Products.UpdateWithoutFile | backend/src/products/products.controller.ts:94-104 | without a file, supplied columns change and the rest keep their values |
| Products.UpdateWithFile | backend/src/products/products.controller.ts:98-102 | with a file, the image URL is the upload's whatever the body said |
| Products.DeleteRemovesOnlyThatProduct | backend/src/products/products.controller.ts:107-123 | after the owner's delete the product reads as 404, other products remain, its generations are gone |
| Products.ColumnName | backend/src/products/product.entity.ts:29 | a `varchar(255)` value is accepted exactly when its excess past 255 characters is all spaces; the stored value plus the cut spaces is the input, and a short value is stored unchanged |
| Products.SpacePaddedNameStored | backend/src/products/dto/create-product.dto.ts:11 | 254 letters, a selector and a space pass validation, and the route stores the first 255 characters |
| Products.SpacePaddedRenameStored | backend/src/products/product.entity.ts:29 | renaming to 255 letters and a space stores the 255 letters |
| Products.SelectorNameOverflowsColumn | backend/src/products/dto/create-product.dto.ts:11 | a 255-letter name plus a variation selector is valid yet the insert fails with 500 |
| Generations.Calls | backend/src/generations/generations.service.ts:60-101 | seven calls, all on the stored product's name, description and image: title at 80, long description, tags, then the four channels in order |
| Generations.Gather | backend/src/generations/generations.service.ts:52-101 | all texts in call order when every call succeeds; otherwise the error of a failing call |
| Generations.GenerateAll | backend/src/generations/generations.service.ts:28-122 | missing and foreign products are the same 404; success needs all seven calls and stores one row holding each text in the matching column |
| Generations.FindAllByProduct | backend/src/generations/generations.service.ts:127-132 | exactly the product's generations |
| Generations.HistoryNewestFirst | backend/src/generations/generations.service.ts:127-132 | the history is in strictly descending creation time |
| Generations.NewGenerationHeadsHistory | backend/src/generations/generations.service.ts:106-121 | appending a generation row (the last step of generate-all) puts it at the head of its product's history and leaves the earlier ones unchanged and in order |
| Generations.FindOne | backend/src/generations/generations.service.ts:138-143 | the generation with its product loaded |
| Generations.FindOneHasProduct | backend/src/generations/generation.entity.ts:22-26 | in a valid store a found generation always has its product |
| Generations.GenerateAction | backend/src/generations/generations.controller.ts:23-26 | generation uses the body's product and the caller as owner |
| Generations.ListAction | backend/src/generations/generations.controller.ts:28-31 | exactly the product's generations, for any caller |
| Generations.GetAction | backend/src/generations/generations.controller.ts:33-46 | 404 when missing, 403 for another owner's product, the generation itself for the owner |
| Generations.GenerateRoute | backend/src/generations/generations.controller.ts:19-26 | 401 without a user, else the generate action |
| Generations.ListRoute | backend/src/generations/generations.controller.ts:28-30 | 401 without a user; a signed-in caller gets exactly the product's history |
| Generations.GetRoute | backend/src/generations/generations.controller.ts:33-35 | 401 without a user, else the get action |
| Generations.ForeignLooksMissing | backend/src/generations/generations.service.ts:34-40 | another user's product and a missing id give the same 404 |
| Generations.AllOrNothing | backend/src/generations/generations.service.ts:52-121 | any failing call makes the generation fail with a failing call's error; success adds exactly one row |
| Generations.ForbiddenHereNotFoundThere | backend/src/generations/generations.controller.ts:41-43 | reading another owner's generation is 403 while generating for its product is 404 |
| Generations.OwnerReadsGeneration | backend/src/generations/generations.controller.ts:45 | the owner reads the stored generation unchanged |
| Generations.NoNullProductInValidStore | backend/src/generations/generations.controller.ts:41 | in a valid store the ownership test never meets a missing product |
| Generations.ListIgnoresCaller | backend/src/generations/generations.controller.ts:28-31 | every signed-in caller gets the same history |
| Generations.DeletedProductHasNoHistory | backend/src/generations/generation.entity.ts:22-24 | deleting a product leaves it no generations |
| Auth.Register | backend/src/auth/auth.service.ts:31-53 | a taken email is 409 and nothing is stored; otherwise one user with the password's hash and the answer is id, email and name |
| Auth.Login | backend/src/auth/auth.service.ts:58-78 | unknown email and wrong password are the same 401; success signs the user's id and email |
| Auth.Authenticate | backend/src/auth/strategies/jwt.strategy.ts:39-44 | the request's user is the verified payload's subject and email |
| Auth.LoginFailuresAlike | backend/src/auth/auth.service.ts:59-69 | the two login failures are indistinguishable |
| Auth.RegisterTwiceConflicts | backend/src/auth/auth.service.ts:37-40 | the second registration of an email is 409 |
| Auth.RegisterThenLogin | backend/src/auth/auth.service.ts:43-77 | a new user can log in at once, and the token names that user |
| Auth.LoginTokenAuthenticates | backend/src/auth/auth.service.ts:72-77 | a login token authenticates requests as the user who logged in |

## Left out

- The language model and vision calls, LangChain's template rendering and
  the OpenAI client are oracles. Prompts are built with the values
  substituted directly, and braces inside values are not re-read as
  template variables.
- `ai.service.ts` and the long-description pipeline only delegate, so they
  are not modelled. Their calls are `Generations.AiCall` values.
- `JSON.parse` and `JSON.stringify` are function parameters. Reading the
  image file and base64 encoding are I/O; the file is a byte-sequence
  parameter.
- bcrypt, JWT signing and verification, token expiry and the passport
  wiring are function parameters. The register, login and generate-all
  request classes are not modelled, and neither is the `IsEmail` check.
- Ids are fresh natural numbers. The database's UUIDs, and the 500 error
  Postgres gives for a malformed id in a path, are not modelled.
- Timestamps come from a clock that ticks on every write, so no two rows
  share a creation time. Ties in `createdAt` are not modelled.
- Requests run one at a time. Concurrent requests and transactions are
  not modelled.
- An uploaded file is written to disk before validation and the handler
  run. The disk is not modelled, so neither is the file left behind by a
  failed request.
- Validation errors are `BadRequest("Bad Request")`. The per-field messages
  class-validator produces, including the custom ones in
  `create-product.dto.ts`, are left out.
- The image picker's drag-and-drop handlers, the dragging flag and the
  rendering are UI. `maxSizeMB` is a natural number here; the division is
  compared as the equivalent byte count.
- Logging calls are not modelled.
- Dto.Json: `JNum` holds the number `JSON.parse` produced, taken as an
  exact real. The rounding from the numeral in the request to a double is
  not modelled, so `20.00000000000000001`, which parses to 20 and passes
  `@IsInt()`, is a non-integer here. Numerals that overflow to ±Infinity,
  which `@IsInt()` refuses, are not represented: `1e400` is an integer
  here.
- VisionAnalysis.AnalyzeImage: `parse` stands for `JSON.parse` followed by
  the `colors.length` test, and yields a typed record. The code passes on
  any value that survives that test unchecked, such as a string `colors`
  or a number `description`. Such mistyped records, and the errors they
  can cause later in `formatAnalysisForPrompt`, are not modelled.
- Text.DecimalString: renders every integer in plain decimal digits.
  JavaScript writes numbers from 1e21 up in exponent notation, and rounds
  integers above 2^53 to the nearest double; neither is modelled.
- Generations.Gather: when several calls fail, `Promise.all` rejects with
  the first to fail in time. The model takes the first in list order, and
  its contract promises only the error of some failing call.
- Generations.GenerateAll: the saved row's `product` relation is
  represented by `productId`. The generation is returned without the
  product object embedded.
