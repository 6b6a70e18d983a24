# Photographer site core in Dafny

This project models the server-side logic of a Django site run by a
photographer. It covers four areas:

- **bookings**: time slots with a capacity, client bookings that an operator
  confirms, the date listing, the booking flow with its confirmation code,
  and the admin columns and bulk actions;
- **portfolio**: albums, photos and videos, upload-extension validation,
  YouTube embed links, the gallery and album pages, and the admin previews;
- **reviews**: visitor reviews that wait for moderation, imported social
  reviews, the public list, the moderation form, the admin actions, and the
  "latest reviews" meant for every page's context;
- **core admin**: the shortened service description, and the permissions that
  keep the single settings row from being added or deleted, while its change
  form still edits it.

Every database table is a sequence of immutable records in stored order.
Every view, admin column and action is a pure function from that state to a
result: a page, a redirect, a not-found, or a new state. The lemmas relate
operations to one another: round trips, invariants an operation preserves,
"nothing else changes", and which requests can make a review public.

Modules follow the source files:

| source file | module |
|---|---|
| bookings/models.py | `BookingModels` |
| bookings/views.py | `BookingViews` |
| bookings/admin.py | `BookingAdmin` |
| bookings/filters.py | `BookingFilters` |
| portfolio/models.py | `PortfolioModels` |
| portfolio/admin.py | `PortfolioAdmin` |
| portfolio/views.py | `PortfolioViews` |
| reviews/models.py and reviews/forms.py | `ReviewModels` |
| reviews/views.py | `ReviewViews` |
| reviews/admin.py | `ReviewAdmin` |
| reviews/context_processors.py | `ReviewContext` |
| core/admin.py | `CoreAdmin` |

Helper modules model the Python standard library pieces the code relies on:

- `Calendar`: `datetime.date`, and `strptime` with `'%Y-%m-%d'`;
- `Urls`: `urllib.parse.urlparse` and `parse_qs`;
- `Text`: string helpers;
- `Seqs`: filtering and counting;
- `Sorting`: a stable sort by an integer key, which models `order_by`;
- `Wrappers`: `Option`.

## Model

| member | source | states |
|---|---|---|
| BookingModels.NewBooking | bookings/models.py:89-116 | A booking made from the client form starts unconfirmed with an empty code, attached to the chosen slot, carrying the client's fields unchanged |
| BookingModels.RemainingCapacity | bookings/models.py:51-54 | Free places are the slot maximum less the confirmed bookings on it: never above the maximum, and at least the maximum less the number of bookings |
| BookingModels.IsFullyBooked | bookings/models.py:56-58 | A slot is full exactly when its confirmed bookings reach its maximum |
| BookingModels.NonHoldingBookingKeepsCapacity | bookings/models.py:51-54 | Adding an unconfirmed booking, or one on another slot, leaves the free places unchanged |
| BookingModels.ConfirmedBookingTakesOnePlace | bookings/models.py:51-54 | Adding a confirmed booking on the slot takes exactly one place |
| BookingModels.UnconfirmedNeverCount | bookings/models.py:51-54 | A ledger holding only unconfirmed bookings leaves every slot at its maximum |
| BookingModels.CapacityCanBeNegative | bookings/models.py:51-54 | The free-place count is not clamped: two confirmed bookings on a one-place slot leave -1 |
| BookingModels.Clean | bookings/models.py:60-77 | A slot is valid iff it has a date when specific, both times, start strictly before end, and a specific date not before today; each error is reported exactly when its check fails and every earlier check passed |
| BookingModels.CleanDateBoundary | bookings/models.py:74-77 | A slot dated today passes, and slots that are not specific are never date-checked |
| BookingModels.CleanRejectsEmptyWindow | bookings/models.py:70-71 | Equal start and end times are rejected |
| BookingModels.DayKindOf | bookings/models.py:43-49 | A slot reads as a date iff it is specific and dated, as weekdays iff it is a weekday slot, and as weekends otherwise, including a specific slot without a date |
| BookingModels.SlotLabelShowsDate | bookings/models.py:44-45 | The label of a dated specific slot starts with its date, which parses back to the same date |
| BookingModels.UndatedSpecificSlotReadsAsWeekend | bookings/models.py:48-49 | A specific slot without a date is labelled as a weekend slot |
| BookingModels.MintedCodeShape | bookings/models.py:128-130 | A code minted from a UUID text is eight upper-case hexadecimal digits |
| BookingModels.SaveBooking | bookings/models.py:126-131 | Saving sets the code only when it is empty, to the minted value, and changes no other field |
| BookingModels.ResaveKeepsCode | bookings/models.py:126-131 | A second save changes nothing, whatever UUID it draws |
| BookingViews.SlotsForDate | bookings/views.py:85-92 | The listing holds exactly the stored slots that are specific, dated on the requested date, available and not full |
| BookingViews.CalendarContext | bookings/views.py:76-98 | No date or an empty date gives no listing; a date that does not parse as YYYY-MM-DD gives the format error and no listing; a valid date gives that date's listing |
| BookingViews.FindAvailableSlot | bookings/views.py:109 | Finds an available slot with the id, or reports none iff no slot has both the id and availability |
| BookingViews.Dispatch | bookings/views.py:106-116 | The form is not-found iff no available slot has the id, redirects to the calendar iff that slot is full, and otherwise shows the form for that slot |
| BookingViews.FormValid | bookings/views.py:134-180 | A full slot redirects to the calendar and stores nothing; otherwise the booking is stored under the code minted from the UUID, unless that code is already in use, which is a storage conflict that stores nothing; success appends exactly one booking and keeps the stored bookings and slots |
| BookingViews.SubmitBooking | bookings/views.py:106-183 | The whole booking request, every outcome as an iff: not-found and calendar redirect follow dispatch; an open slot with an invalid form redisplays it; a valid form succeeds with the minted code exactly when that code is free and is a storage conflict otherwise; only success changes the stored bookings |
| BookingViews.AlertDoesNotMatter | bookings/views.py:158-180 | Whether the notification succeeds or fails never changes the outcome or the stored state |
| BookingViews.SubmitStoresBooking | bookings/views.py:136-147 | A successful request appends one unconfirmed booking on the chosen slot with the client's data and the minted code, and the success target carries that code |
| BookingViews.SubmitKeepsCapacity | bookings/views.py:136-147 | No booking request changes any slot's free places, because new bookings are unconfirmed |
| BookingViews.SlotStaysOpen | bookings/views.py:106-116 | After a successful booking the same slot still offers its form |
| BookingViews.SubmitPreservesIntegrity | bookings/views.py:134-183 | Booking keeps slot ids unique, booking ids unique, codes unique, and every booking attached to an existing slot |
| BookingViews.LookupByCode | bookings/views.py:192 | A lookup finds a booking with exactly that code, and is not-found iff no booking has it |
| BookingViews.UniqueCodeMatchesOnce | bookings/models.py:111-115 | With unique codes at most one booking matches a code |
| BookingViews.UniqueCodesNeverAmbiguous | bookings/views.py:202 | With unique codes the detail lookup never finds several bookings |
| BookingViews.CreatedBookingIsFoundByCode | bookings/views.py:182-183 | The code in the success redirect finds exactly the booking just stored |
| BookingViews.LookupAfterFreshAppend | bookings/views.py:192 | A booking appended under a code nobody else holds is exactly what a lookup of that code finds |
| BookingAdmin.FormatDateDisplay | bookings/admin.py:59-66 | The date column uses the label's three-way classification: the date, "Будние дни", or "Выходные дни", which a specific slot without a date also gets |
| BookingAdmin.DateDisplayAgreesWithLabel | bookings/admin.py:61-66 | The column shows "Выходные дни" exactly when the slot label starts with the weekend word |
| BookingAdmin.AvailabilityStatus | bookings/admin.py:75-83 | Unavailable iff the flag is off, whatever the capacity; otherwise available iff places remain, and occupied iff the slot is full |
| BookingAdmin.BookingsCount | bookings/admin.py:86-90 | Booked counts confirmed bookings only, and booked plus free equals the maximum |
| BookingAdmin.SetAvailability | bookings/admin.py:106-116 | Every selected slot gets the new availability; nothing else changes |
| BookingAdmin.SetAvailabilityIdempotent | bookings/admin.py:106-116 | Repeating the action with the same value changes nothing |
| BookingAdmin.UnavailableSlotsAreNotOffered | bookings/admin.py:112-114 | After a slot is made unavailable, no date listing offers it |
| BookingAdmin.StatusBadge | bookings/admin.py:216-221 | The badge reads confirmed exactly when the booking is confirmed |
| BookingAdmin.SetConfirmed | bookings/admin.py:251-261 | Every selected booking gets the new confirmation flag; nothing else changes |
| BookingAdmin.ConfirmNeverFreesPlaces | bookings/admin.py:251-254 | Confirming never increases any slot's free places |
| BookingAdmin.UnconfirmNeverTakesPlaces | bookings/admin.py:257-260 | Unconfirming never decreases any slot's free places |
| BookingAdmin.ConfirmThenUnconfirmRestores | bookings/admin.py:251-261 | Unconfirming a selection of previously unconfirmed bookings that was just confirmed restores the ledger |
| BookingAdmin.ConfirmingCanOverfill | bookings/admin.py:251-254 | Confirming is not checked against capacity: it can drive the free places below zero |
| BookingAdmin.AdminSaveBooking | bookings/admin.py:269-274 | Editing keeps the booking's slot, id and creation time, keeps an existing code and mints one when the code is empty; adding takes the form's slot, the new id and the current time and mints a code; every client and shooting field, and the confirmation flag, come from the form |
| BookingAdmin.EditKeepsSlot | bookings/admin.py:272-273 | The slot submitted with an edit has no effect on the saved booking |
| BookingAdmin.UneditedSaveKeepsBooking | bookings/admin.py:269-274 | Saving a stored booking's change form without edits gives back that booking, whatever id, time or identifier is drawn |
| BookingFilters.DateTypeLookups | bookings/filters.py:8-13 | The filter offers three choices, one per date type |
| BookingFilters.FilterByDateType | bookings/filters.py:15-18 | With no value the slots pass unchanged; with a value the result is the slots of that type at their ascending stored positions, keeping every occurrence of a matching slot and none of any other |
| Seqs.FilterPicksMatching | bookings/filters.py:17 | A query-set filter keeps exactly the records at the positions that satisfy the condition, in their stored order |
| Seqs.FilterCounts | bookings/filters.py:17 | A query-set filter keeps every occurrence of a matching record and no occurrence of any other |
| BookingFilters.FilterByDateTypeIdempotent | bookings/filters.py:15-18 | Filtering twice is filtering once |
| BookingFilters.UnknownValueSelectsNothing | bookings/filters.py:15-17 | A value outside the offered choices selects no slot |
| Calendar.ParseIsoDate | bookings/views.py:81 | A parsed date is a valid calendar date, and the whole text is a four-digit year, a dash, a month field, a dash and a day field, whose values are the date's year, month and day; nothing may follow the day field, so the text is 8 to 10 characters long |
| Calendar.TrailingDataRejected | bookings/views.py:81 | A date's YYYY-MM-DD form followed by any further text does not parse |
| Calendar.IsoDateRoundTrip | bookings/views.py:81 | Every valid date printed as YYYY-MM-DD parses back to itself |
| Calendar.ParseFields | bookings/views.py:81 | A four-digit year, a month field and a day field joined by dashes parse field by field, and only into a real calendar date |
| PortfolioModels.Extension | portfolio/models.py:9 | The extension is empty or a dot-led suffix of the name, with no later dot or slash |
| PortfolioModels.SplitExt | portfolio/models.py:9 | The root and extension concatenate back to the name, and the extension is the last suffix |
| PortfolioModels.ExtensionOfSuffix | portfolio/models.py:9 | A name made of a proper stem and a dot-led alphanumeric suffix has that suffix as its extension |
| PortfolioModels.ValidateImage | portfolio/models.py:8-12 | An image is accepted iff its lowercased last extension is one of .jpg .jpeg .png .webp |
| PortfolioModels.ValidateVideo | portfolio/models.py:14-18 | A video is accepted iff its lowercased last extension is one of .mp4 .mov .avi .webm |
| PortfolioModels.NoDotRejected | portfolio/models.py:8-18 | A name without a dot is rejected by both validators |
| PortfolioModels.ImageExtensionAccepted | portfolio/models.py:8-12 | Any stem followed by an image extension in any letter case is accepted |
| PortfolioModels.VideoExtensionAccepted | portfolio/models.py:14-18 | Any stem followed by a video extension in any letter case is accepted |
| PortfolioModels.LastSuffixDecides | portfolio/models.py:9-12 | Only the last suffix counts: "a.jpg.exe" is rejected |
| PortfolioModels.UpperCaseExtensionAccepted | portfolio/models.py:11 | The extension is compared lower-cased: any stem followed by ".JPEG" (as in "IMG_01.JPEG") is accepted |
| PortfolioModels.HiddenFileRejected | portfolio/models.py:9-12 | A leading-dot name such as ".jpg" has no extension and is rejected |
| PortfolioModels.PhotoLabel | portfolio/models.py:99-102 | A photo reads as its title when it has one, and otherwise as "Фото " and its key |
| PortfolioModels.PhotoLabelShowsPk | portfolio/models.py:102 | An untitled photo's label carries its key in decimal, which reads back as the key |
| PortfolioModels.EmbedUrl | portfolio/models.py:139-161 | No link gives none; a watch link gives the embed prefix and its first v value, with no fallback to the short-link branch; otherwise a short link gives the prefix and its stripped path; every result starts with the prefix |
| PortfolioModels.WatchLinkRoundTrip | portfolio/models.py:145-149 | A watch link built from a video id embeds exactly that id |
| PortfolioModels.ShortLinkRoundTrip | portfolio/models.py:152-156 | A short link built from a video id embeds exactly that id |
| PortfolioModels.ShortLinkIsNotWatchLink | portfolio/models.py:145-152 | A short link never contains the watch marker, so the short-link branch decides it |
| PortfolioAdmin.FilePreview | portfolio/admin.py:32-35 | The preview is a picture of the file, or the placeholder exactly when there is no file |
| PortfolioAdmin.ImagePreview | portfolio/admin.py:101-104 | A photo shows its image, or "Нет изображения" exactly when it has none |
| PortfolioAdmin.CoverPreview | portfolio/admin.py:68-71 | An album shows its cover, or "Нет обложки" exactly when it has none |
| PortfolioAdmin.ThumbnailPreview | portfolio/admin.py:138-141 | A video shows its thumbnail, or "Нет превью" exactly when it has none |
| PortfolioAdmin.PreviewPlaceholderIndependent | portfolio/admin.py:32-35 | Whether a picture is shown depends on the file alone, not on the placeholder text |
| PortfolioAdmin.TagNamesInOrder | portfolio/admin.py:75 | The names are those of the tagged types at their ascending stored positions, one name per tagged type |
| PortfolioAdmin.TagNamesMembers | portfolio/admin.py:75 | Every tagged type's name is listed, and only names of tagged types are listed |
| PortfolioAdmin.UntaggedHasNoNames | portfolio/admin.py:75 | An album with no tagged type lists no names |
| PortfolioAdmin.TagNamesSnoc | portfolio/admin.py:75 | A type stored last adds its name last exactly when the album is tagged with it |
| PortfolioAdmin.ShootingTypesList | portfolio/admin.py:74-75 | The column is the tagged names joined by ", ": empty for an untagged album, and containing the name of every tagged type |
| PortfolioAdmin.ShootingTypesListSnoc | portfolio/admin.py:75 | Built one type at a time: an untagged type adds nothing, the first tagged one is the whole text, each later one adds ", " and its name |
| Text.Join | portfolio/admin.py:75 | A join starts with the first item and is as long as the items plus one separator between each neighbouring pair |
| PortfolioAdmin.JoinContainsEach | portfolio/admin.py:75 | Joining with a separator keeps every joined name in the text |
| PortfolioAdmin.VideoType | portfolio/admin.py:152-157 | "YouTube" iff there is a link, even with a file; "Файл" iff there is only a file; "Не указано" iff neither |
| PortfolioAdmin.EmbedPreview | portfolio/admin.py:144-149 | An iframe iff an embed link exists; a video element iff there is none but a file exists; the placeholder otherwise |
| PortfolioAdmin.TypeAndPreviewAgree | portfolio/admin.py:144-157 | An iframe implies the YouTube type; a file-only video shows its file; a video with neither shows the placeholder |
| PortfolioAdmin.UnconvertibleLinkFallsBackToFile | portfolio/admin.py:145-148 | A link that gives no embed falls back to the uploaded file, though the type column says YouTube |
| PortfolioViews.GalleryAlbums | portfolio/views.py:14-17 | The gallery holds exactly the published albums, in stored order |
| PortfolioViews.ActiveShootingTypes | portfolio/views.py:22 | The type menu holds exactly the active types |
| PortfolioViews.FeaturedCount | portfolio/views.py:23 | The featured count never exceeds the number of albums in the gallery |
| PortfolioViews.FeaturedCountSnoc | portfolio/views.py:23 | Adding an album raises the count by one iff it is both published and featured |
| PortfolioViews.FindPublished | portfolio/views.py:34-35 | Finds a published album with the slug, or none iff no published album has it |
| PortfolioViews.AlbumPhotos | portfolio/views.py:40 | An album's photos are its own photos, all of them, as a permutation ordered by their order field |
| PortfolioViews.AlbumDetail | portfolio/views.py:34-41 | The page is not-found iff no published album has the slug; otherwise it shows that album and its ordered photos |
| PortfolioViews.PublishedAlbumIsReachable | portfolio/views.py:34-41 | With unique slugs every published album's page is reachable by its slug |
| PortfolioViews.PublishedVideos | portfolio/views.py:50-51 | The video list holds exactly the published videos |
| PortfolioViews.FindActiveType | portfolio/views.py:60 | Finds an active type with the slug, or none iff no active type has it |
| PortfolioViews.TaggedAlbums | portfolio/views.py:61-64 | The type page lists exactly the published albums tagged with the type |
| PortfolioViews.ShootingTypePage | portfolio/views.py:59-69 | The page is not-found iff no active type has the slug; otherwise it lists that type's tagged published albums |
| PortfolioViews.TypePageWithinGallery | portfolio/views.py:14-17 | A type page is the gallery filtered by the tag |
| PortfolioViews.Unpublish | portfolio/admin.py:43 | Clearing an album's published flag changes nothing else |
| PortfolioViews.UnpublishedAlbumDisappears | portfolio/views.py:15 | An unpublished album is absent from the gallery, its detail page and every type page |
| ReviewModels.ParseStatus | reviews/models.py:5-9 | Reading a stored status accepts exactly the three choices, each mapping back to its code |
| ReviewModels.StatusRoundTrip | reviews/models.py:5-9 | Every status survives being stored and read back |
| ReviewModels.StatusCodeInjective | reviews/models.py:19 | Distinct statuses are stored as distinct values |
| ReviewModels.RatingChoicesAreOneToFive | reviews/models.py:11-15 | The rating choices are exactly the integers 1 to 5 |
| ReviewModels.SubmitReview | reviews/models.py:13-20 | A review is saved iff author (at most 100 characters), a valid e-mail, text and a 1-5 rating are given and any uploaded photo passes the image checks; it starts pending and private, so not visible |
| ReviewModels.SourceCode | reviews/models.py:31-34 | Each source has its own stored value |
| ReviewModels.AddSocialReview | reviews/models.py:36-42 | A social review is stored iff its external id is given, at most 100 characters and unused, and its rating is 1 to 5 |
| ReviewModels.AddSocialReviewKeepsInvariant | reviews/models.py:39 | Storing keeps external ids unique and all ratings in 1 to 5 |
| ReviewModels.DuplicateImportRefused | reviews/models.py:39 | Importing the same external id twice is refused the second time |
| ReviewViews.PublicReviews | reviews/views.py:16-17 | The public list holds exactly the approved public reviews |
| ReviewViews.ModerationQueue | reviews/views.py:38-39 | The queue holds exactly the pending reviews |
| ReviewViews.QueueAndListDisjoint | reviews/views.py:17-39 | No review is both queued and publicly listed |
| ReviewViews.IndexOfReview | reviews/views.py:46 | Finds the first review with the id, or reports none iff no review has it |
| ReviewViews.StatusAfter | reviews/views.py:47-52 | "approve" gives approved, "reject" gives rejected, and any other action keeps the status |
| ReviewViews.ModeratePost | reviews/views.py:33-55 | An anonymous visitor is sent to log in exactly when not logged in, and nothing changes; for a logged-in user: without both fields nothing changes; the id error happens exactly when the id is not numeric; not-found happens exactly when no review has the id; otherwise only the found review's status follows the action |
| ReviewViews.ApproveSetsStatusOnly | reviews/views.py:47-53 | Approving a unique id sets that review to approved and changes nothing else |
| ReviewViews.UnknownActionKeepsLedger | reviews/views.py:47-53 | An action other than approve or reject leaves every review as it was |
| ReviewViews.ModerationKeepsPrivateHidden | reviews/views.py:41-55 | Moderation never makes a private review visible |
| ReviewAdmin.RatingStars | reviews/admin.py:27-28 | For a rating of 0 to 5 there are five stars; star i is filled iff i is below the rating |
| ReviewAdmin.StarsRoundTrip | reviews/admin.py:79-80 | Counting the filled stars gives the rating back |
| ReviewAdmin.BadgeColour | reviews/admin.py:31-33 | Pending is orange, approved green, rejected red |
| ReviewAdmin.BadgeColourDecides | reviews/admin.py:32 | The colour alone tells the status |
| ReviewAdmin.SetStatus | reviews/admin.py:37-45 | Every selected review gets the new status; nothing else changes |
| ReviewAdmin.SetPublic | reviews/admin.py:47-55 | Every selected review gets the new public flag; nothing else changes |
| ReviewAdmin.StatusAndPublicityCommute | reviews/admin.py:37-55 | Status and publicity actions commute: approval and publicity are independent |
| ReviewAdmin.ApproveAndPublishShows | reviews/admin.py:37-50 | Approving and publishing a selection makes every selected review visible |
| ReviewAdmin.ChangeReview | reviews/admin.py:12-25 | The change form gives the review with the id the posted author, e-mail, rating, text, photo, status and public flag, keeps its id and read-only creation time, and leaves every other review as it was |
| ReviewAdmin.ChangeFormIsStatusThenPublic | reviews/admin.py:22-24 | On status and public flag, the change form acts like a status action followed by a visibility action on its one review |
| ReviewAdmin.StepPublishes | reviews/admin.py:9-55 | One request makes a private review public only if it is a publish action or column edit selecting it, or a change form setting its flag |
| ReviewAdmin.StepApproves | reviews/admin.py:9-45 | One request approves a review only if it is an approve action or column edit selecting it, a change form approving it, or a logged-in approve form naming it |
| ReviewAdmin.PublicOnlyByPublishing | reviews/admin.py:9-55 | Over any run, a private review turns public only through a request that publishes it |
| ReviewAdmin.ApprovedOnlyByApproving | reviews/views.py:47-48 | Over any run, a review becomes approved only through a request approving it |
| ReviewAdmin.FreshReviewNeedsApprovalAndPublication | reviews/views.py:25-26 | A new review reaches the public list only after some request approved it and some request published it |
| ReviewAdmin.SaveSocialReview | reviews/admin.py:62-77 | The change form takes source, author, text, rating and the post's date from the form when it validates, and otherwise saves nothing; the external id, both links and the import time always stay |
| ReviewAdmin.SocialReviewsNeverAddedByAdmin | reviews/admin.py:62-84 | No admin request sequence adds a social review: the table never grows, no external id appears that was not imported, and without edits the rows are only kept or deleted |
| ReviewContext.LatestReviews | reviews/context_processors.py:1-10 | Visible reviews, newest first, the head of the public list sorted by time; exactly three when at least three are public, otherwise all of them |
| Sorting.SortStable | portfolio/views.py:40 | The records with any one key come out of the sort in their input order, so ties keep stored order |
| Sorting.InsertStable | reviews/context_processors.py:9 | Inserting into a sorted list places the record after every record with its key |
| ReviewContext.LatestWithinPublicList | reviews/context_processors.py:6-9 | Every latest review is in the public list |
| ReviewContext.LeftOutAreNotNewer | reviews/context_processors.py:9 | A public review left out means three were shown, none older than it |
| CoreAdmin.ShortDescription | core/admin.py:41-42 | Up to 50 characters unchanged; longer becomes the first 50 and "...", 53 long; always starts with a prefix of the original |
| CoreAdmin.ShortDescriptionIdempotent | core/admin.py:42 | Shortening a shortened description changes nothing |
| CoreAdmin.LongTailsAreHidden | core/admin.py:42 | Long descriptions agreeing on their first 50 characters show the same |
| CoreAdmin.ApplyRequest | core/admin.py:12-31 | An add or delete goes through only with its permission; the change form rewrites the row it names; a refused request or a missing row leaves the rows unchanged |
| CoreAdmin.RequestNeverGrows | core/admin.py:12-13 | Without add permission one request never grows the table, and any request but an edit only keeps or removes rows |
| CoreAdmin.RequestKeepsKeys | core/admin.py:12-13 | Without add permission one request adds no key when the change form keeps keys |
| CoreAdmin.NoAddNeverGrows | core/admin.py:12-13 | Without add permission no request sequence grows the table or adds a key; without edits it adds no row |
| CoreAdmin.SettingsRequest | core/admin.py:12-31 | One request to the settings page keeps the row count and keys, and only an edit changes a row |
| CoreAdmin.SiteSettingsFixed | core/admin.py:12-31 | After any request sequence the settings table has the same number of rows with the same keys in the same order, and without edits it is unchanged |
| Urls.UrlParse | portfolio/models.py:146 | Parsing fails exactly when splitting fails; scheme, host, query and fragment are those of the split; for a scheme that uses parameters, a path with a ';' after its last '/' is cut at the first such ';' into path and parameters; otherwise the path is kept whole with empty parameters |
| Urls.SingleFieldQuery | portfolio/models.py:147 | A query of one plain name=value field gives that value for the name |

## Left out

- Notification sending (Telegram and e-mail): network I/O. The booking flow takes the outcome as a parameter and ignores it.
- The race between the two capacity checks of the booking form: the model is sequential, with no concurrency.
- Randomness and the clock: the UUID, today's date and the creation time are inputs.
- HTML and `strftime` rendering: the model returns which kind of output is shown, not its markup or translation text.
- BookingAdmin.FormatDateDisplay: the contract does not spell out the digits of the dotted date, only that the text starts with a digit.
- The gallery's `AlbumFilter` (portfolio/filters.py), a declarative query filter: the gallery is modelled with no filter applied.
- Pagination: every list is returned whole.
- Ordering: Meta `ordering` is taken as the stored order of each sequence. Explicit `order_by` is a stable sort, and ties keep stored order, which is one order the database may return.
- PortfolioAdmin.ShootingTypesList: names appear in stored order, not re-sorted by the type's order and name.
- `SiteSettings.load`, the service price display and `export_contacts`: framework configuration and placeholders with no logic.
- The JavaScript files, settings and URL configuration. The wiring gaps stay as the source has them: `BookingStatusView` is referenced but not defined; the bookings and reviews apps are not installed; the `latest_reviews` context processor is never registered in the template settings (framed/settings.py:50-56), so no page receives it; and the root URL configuration routes only `admin/` and `core.urls` (framed/urls.py:4-7), so no portfolio, bookings or reviews page is reachable.
- ReviewViews.ModeratePost: only ASCII decimal ids are numbers. Python's `int()` also accepts surrounding spaces, a sign, underscores and non-ASCII digits; those ids are reported as errors instead.
- ReviewModels.SubmitReview: e-mail syntax validation and the image field's checks (a readable, non-empty image with a name of at most 100 characters) are parameters. Form whitespace stripping is not modelled.
- ReviewAdmin.ChangeReview: models only a change form that validates. An invalid form saves nothing, which is the same as no request.
- CoreAdmin.SiteSettingsFixed: the settings row's editable fields may change through the change form; the lemma keeps the row count and the keys, not the contents.
- ReviewModels.AddSocialReview: author, text and the URL fields are not validated.
- Calendar.ParseIsoDate: non-ASCII digits, which Python's `\d` accepts, are not modelled.
- Urls: percent-decoding of non-ASCII escapes, IPv6 bracket validation and the NFKC host check are not modelled. Lower-casing is ASCII only.
- PortfolioModels.Extension: models POSIX `os.path.splitext` only.
- `media_fullscreen`, the photo inline's `is_cover_candidate` column, `__str__` of reviews and messages shown to users: display only.
- The validation error path of `booking.save()` in the booking form: no save-time validator exists, so that branch cannot occur.
