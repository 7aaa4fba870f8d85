# Thryve core, modelled in Dafny

Thryve is a Django site where small businesses connect with each other, trade on a
marketplace, book listings and talk in a community feed. This project models the
rules behind those features and proves properties about them:

- **Connections** (`connections.dfy`): the connection-request lifecycle of
  `thryve_app/views.py`. There are two tables, directed requests and undirected
  connections, and five operations: send, accept, decline, cancel and remove. The
  module also models the connections page partition and the "browse businesses"
  exclusion set. The pure transition functions over a `Db` value carry the proofs.
  The invariant `Consistent` holds after any sequence of operations. It says:
  - at most one request and at most one connection per unordered pair;
  - a request is accepted exactly when its pair is connected;
  - every connection has an accepted request behind it;
  - no row is ever left declined.

  The class `ConnectionStore` keeps the same tables as fields. Its methods update
  them in place, as the views do, and are proved equal to the transition
  functions.
- **Listings and bookings** (`listings.dfy`, `bookings.dfy`): the `Listing` and
  `BookingRequest` records with their enumerations, defaults, column bounds and
  uniqueness constraints.
- **Listing form** (`listing_form.dfy`, `images.dfy`): the image-count and
  image-file validators, and the description, date and per-type cleaning rules.
  It also covers how the form's constructor sets the required flags.
- **Marketplace search** (`marketplace.dfy`, `querysets.dfy`): the conjunctive
  query, category and type filters followed by newest-first ordering. Query sets
  are modelled as sequences with a multiset-preserving filter and sort.
- **Display labels** (`marketplace_tags.dfy`): the category and subcategory label
  lookups, each with its fallback.
- **Registration** (`registration.dfy`): the email and company-name uniqueness
  checks of the sign-up form.
- **Community** (`community.dfy`): the feed's liked-post set, the like toggle,
  adding a comment and creating a post. Counts are modelled as the numbers of rows
  that name the post, and orderings as sorts. `CommunityStore` performs the same
  updates in place.
- **Profiles** (`profiles.dfy`): the avatar validators, the single-profile
  `get_or_create` guarantee, the old-avatar deletion rule of `UserProfile.save`,
  and the avatar initial and colour class. `ProfileStore` holds the tables.
- **Browser helpers** (`client_script.dfy`, `price_input.dfy`):
  - the price-field formatter;
  - the five-image picker (`ImagePicker`);
  - the gallery index (`Gallery`);
  - suggestion-name truncation;
  - the `category-sub` value encoding.
- **Shared pieces**:
  - `text.dfy` holds Python and JavaScript whitespace stripping, `split`/`join`,
    whitespace collapsing and ASCII case.
  - `wrappers.dfy` holds `Option`/`Result`.
  - `users.dfy` holds user ids and accounts.

Dates are day or time numbers, and the current date is a parameter. Money is an
integer number of hundredths.

The `ConnectionRequest` and `Connection` model classes are not part of this model:
`thryve/thryve_app/views.py` imports them from `thryve_app.models`, which declares
only `Listing`. They are modelled as minimal records shaped after the way the views use them: sender, receiver, status
and optional message, and user1 with user2. The request status enumeration has the
three values pending, accepted and declined. The views never write "declined":
they delete the row instead. The model follows the views, and
`Connections.Consistent` records that no declined row ever exists.

## Model

| member | source | states |
|---|---|---|
| Connections.Send | thryve/thryve_app/views.py:144-170 | An unknown receiver gives "user not found". An existing connection in either orientation gives "already connected". Both leave the state unchanged; any other send succeeds. |
| Connections.StoredMessage | thryve/thryve_app/views.py:146-166 | The message is stripped. A blank message is stored as None; otherwise the stored text is non-empty and trimmed. |
| Connections.WithoutRequestsBetween | thryve/thryve_app/views.py:157-160 | Exactly the requests between the pair, in either direction and whatever their status, are removed; the other rows are kept as they were. |
| Connections.Accept | thryve/thryve_app/views.py:177-197 | Succeeds iff the id names a pending request received by the actor; otherwise "not found" with no change. |
| Connections.AcceptSuccessState | thryve/thryve_app/views.py:177-189 | A successful accept turns exactly that row to accepted and adds exactly one connection, under the next id, between its sender and receiver. That connection is then the only one between the two; all other rows and the users are unchanged. |
| Connections.Decline | thryve/thryve_app/views.py:205-221 | Succeeds iff the id names a pending request received by the actor; otherwise "not found" with no change. |
| Connections.DeclineSuccessState | thryve/thryve_app/views.py:205-212 | A successful decline deletes exactly that row, after which no request joins the two users. Other rows, connections and users are unchanged. |
| Connections.Cancel | thryve/thryve_app/views.py:228-244 | Succeeds iff the id names a pending request sent by the actor; otherwise "not found" with no change. |
| Connections.CancelSuccessState | thryve/thryve_app/views.py:228-235 | A successful cancel deletes exactly that row, after which no request joins the two users. Other rows, connections and users are unchanged. |
| Connections.Remove | thryve/thryve_app/views.py:251-271 | Succeeds iff the actor is user1 or user2 of that connection; otherwise "not found" with no change. |
| Connections.RemoveSuccessState | thryve/thryve_app/views.py:251-263 | A successful remove deletes exactly that connection and exactly the requests between the actor and the other party, after which the two are not connected. Other rows and users are unchanged. |
| Connections.Empty | thryve/thryve_app/views.py:139-271 | The store with no requests and no connections satisfies every invariant the views keep. |
| Connections.ConnectedDependsOnPairOnly | thryve/thryve_app/views.py:150-153 | "Connected" does not depend on the order of the two users. |
| Connections.ConnectedAfterInsert | thryve/thryve_app/views.py:183-186 | After a connection is created, a pair is connected iff it was before or the new row joins it. |
| Connections.ConnectedAfterDelete | thryve/thryve_app/views.py:258 | With one connection per pair, deleting a connection disconnects exactly its own pair. |
| Connections.SendKeepsOneRequestPerPair | thryve/thryve_app/views.py:156-166 | Purging the pair's requests and creating one new request keeps at most one request per unordered pair. |
| Connections.SendKeepsAcceptedIffConnected | thryve/thryve_app/views.py:150-166 | Sending between unconnected users keeps "accepted iff connected". |
| Connections.SendKeepsAcceptedRequests | thryve/thryve_app/views.py:150-166 | Sending between unconnected users keeps every connection backed by an accepted request. |
| Connections.SendKeepsRowFacts | thryve/thryve_app/views.py:162-166 | The new request row keeps keys below the counters, rows naming registered users, and no declined rows. |
| Connections.SendKeepsConsistent | thryve/thryve_app/views.py:144-170 | Send preserves `Consistent`. |
| Connections.AcceptKeepsOneConnectionPerPair | thryve/thryve_app/views.py:183-186 | Creating a connection for an unconnected pair keeps at most one connection per pair. |
| Connections.AcceptKeepsAcceptedIffConnected | thryve/thryve_app/views.py:183-189 | Creating the connection and marking the request accepted keeps "accepted iff connected". |
| Connections.AcceptKeepsAcceptedRequests | thryve/thryve_app/views.py:183-189 | After accept, every connection, the new one included, has an accepted request. |
| Connections.AcceptKeepsRowFacts | thryve/thryve_app/views.py:183-189 | Accept keeps keys below the counters, rows naming users, no declined rows and one request per pair. |
| Connections.AcceptKeepsConsistent | thryve/thryve_app/views.py:173-198 | Accept preserves `Consistent`. |
| Connections.DeletePendingKeepsConsistent | thryve/thryve_app/views.py:212 | Deleting a pending request preserves `Consistent`. |
| Connections.DeleteKeepsRowFacts | thryve/thryve_app/views.py:212 | Deleting a request keeps the row facts. |
| Connections.DeletePendingKeepsAcceptedRequests | thryve/thryve_app/views.py:212 | Deleting a pending request leaves every connection with its accepted request. |
| Connections.DeleteKeepsAcceptedIffConnected | thryve/thryve_app/views.py:212 | Deleting any request keeps "accepted iff connected". |
| Connections.DeleteKeepsOneRequestPerPair | thryve/thryve_app/views.py:212 | Deleting a request keeps at most one request per pair. |
| Connections.DeclineKeepsConsistent | thryve/thryve_app/views.py:201-221 | Decline preserves `Consistent`. |
| Connections.CancelKeepsConsistent | thryve/thryve_app/views.py:224-244 | Cancel preserves `Consistent`. |
| Connections.RemoveKeepsAcceptedIffConnected | thryve/thryve_app/views.py:258-263 | Deleting the connection and purging the pair's requests keeps "accepted iff connected". |
| Connections.RemoveKeepsAcceptedRequests | thryve/thryve_app/views.py:258-263 | After remove, every remaining connection still has an accepted request. |
| Connections.RemoveKeepsRowFacts | thryve/thryve_app/views.py:258-263 | Remove keeps the row facts and one request per pair. |
| Connections.RemoveKeepsConsistent | thryve/thryve_app/views.py:247-272 | Remove preserves `Consistent`. |
| Connections.Step | thryve/thryve_app/views.py:139-271 | Any single view call leaves the user table unchanged. |
| Connections.Run | thryve/thryve_app/views.py:139-271 | A sequence of view calls leaves the user table unchanged. |
| Connections.RunKeepsConsistent | thryve/thryve_app/views.py:139-271 | After any sequence of send, accept, decline, cancel and remove by registered users, the store is `Consistent`: one request and one connection per pair, accepted iff connected. |
| Connections.PendingMeansNotConnected | thryve/thryve_app/views.py:150-166 | In a consistent store, a pending request never coexists with a connection between its users, in either order. |
| Connections.SendLeavesOneRequestForPair | thryve/thryve_app/views.py:156-166 | After a successful send, the only request between the pair is the new pending one from the sender, carrying the stored message. Other pairs' requests and all connections are unchanged. |
| Connections.AcceptThenSendRefused | thryve/thryve_app/views.py:150-155 | Once a request is accepted, a send between the two users in either direction is refused as "already connected" and changes nothing. |
| Connections.DeclineThenResendSucceeds | thryve/thryve_app/views.py:211-212 | After a decline, either user can send again and succeed. |
| Connections.CancelThenResendSucceeds | thryve/thryve_app/views.py:234-235 | After a cancel, either user can send again and succeed. |
| Connections.RemoveThenResendSucceeds | thryve/thryve_app/views.py:257-263 | After a remove, the pair has no connection and no request, and a new send succeeds. |
| Connections.Partners | thryve/thryve_app/views.py:103-108 | The connected-id set is exactly the users connected to the actor. |
| Connections.PendingPartners | thryve/thryve_app/views.py:111-118 | The pending-id set is exactly the users with a pending request to or from the actor. |
| Connections.MatchesQuery | thryve/thryve_app/views.py:125-130 | The empty query matches every account, and a match needs a name field at least as long as the query. |
| Connections.PartnersNotPending | thryve/thryve_app/views.py:102-121 | Where "accepted iff connected" holds, no user is both connected and pending. |
| Connections.PartnersAndPendingAreDisjoint | thryve/thryve_app/views.py:102-121 | In a consistent store, the two exclusion sets are disjoint. |
| Connections.ConnectionsPageOf | thryve/thryve_app/views.py:58-89 | The page lists exactly the actor's connections, the pending requests received and the pending requests sent. Each list is exactly what its action accepts: remove succeeds exactly on the listed connections, accept and decline exactly on the incoming requests, cancel exactly on the sent ones. |
| Connections.PageListsShowDifferentUsers | thryve/thryve_app/views.py:58-89 | In a consistent store, the other party of a listed connection is never the counterpart of a listed incoming or sent request. |
| Connections.ConnectionStore.SendConnectionRequest | thryve/thryve_app/views.py:139-170 | Updates the tables in place exactly as `Send` and keeps them consistent. |
| Connections.ConnectionStore.AcceptConnectionRequest | thryve/thryve_app/views.py:172-198 | Updates the tables in place exactly as `Accept` and keeps them consistent. |
| Connections.ConnectionStore.DeclineConnectionRequest | thryve/thryve_app/views.py:200-221 | Updates the tables in place exactly as `Decline` and keeps them consistent. |
| Connections.ConnectionStore.CancelConnectionRequest | thryve/thryve_app/views.py:223-244 | Updates the tables in place exactly as `Cancel` and keeps them consistent. |
| Connections.ConnectionStore.RemoveConnection | thryve/thryve_app/views.py:246-272 | Updates the tables in place exactly as `Remove` and keeps them consistent. |
| Connections.ConnectionStore.ConnectedIds | thryve/thryve_app/views.py:103-108 | The loop collects exactly the other party of each of the actor's connections. |
| Connections.ConnectionStore.PendingIds | thryve/thryve_app/views.py:111-118 | The loop collects exactly the counterpart of each pending request involving the actor. |
| Connections.ConnectionStore.BrowseBusinesses | thryve/thryve_app/views.py:91-130 | Returns every user except the actor, connected users and users with a pending request either way, filtered by the stripped query when one is given. No result is the actor, a connected user or a user with a pending request. |
| Bookings.ParseStatus | thryve/booking_app/models.py:21-27 | A status key parses iff it is one of the four keys, and parsing inverts `StatusKey`. |
| Bookings.NewBookingRequest | thryve/booking_app/models.py:5-29 | A new request is pending and keeps its listing, sender, receiver and optional message. |
| Bookings.UniqueTogetherImpliesUniquePending | thryve/booking_app/models.py:34-39 | The (listing, sender, status) constraint implies the one-pending-per-(listing, sender) constraint. |
| Bookings.Insert | thryve/booking_app/models.py:34-39 | An insert is refused iff a row with the same listing, sender and status exists. An accepted insert adds just that row and keeps both constraints. |
| Bookings.SecondPendingRefused | thryve/booking_app/models.py:37-39 | A second pending request for the same listing and sender is refused. |
| Bookings.SecondCompletedRefused | thryve/booking_app/models.py:36 | The three-column constraint also refuses a second completed booking of the same listing by the same sender. |
| Listings.ParseListingType | thryve/thryve_app/models.py:5-9 | A listing type key parses iff it is sale, swap or buy; parsing inverts the key function. |
| Listings.ParseCategory | thryve/thryve_app/models.py:11-15 | A category key parses iff it is electronics, furniture or other; parsing inverts the key function. |
| Listings.CategoryKeysRoundTrip | thryve/thryve_app/models.py:11-15 | Each category's key parses back to it, each (key, label) pair is in the choices, and every choice key parses. |
| Listings.ListingTypeKeysRoundTrip | thryve/thryve_app/models.py:5-9 | Each listing type's key parses back to it. |
| Listings.NewListing | thryve/thryve_app/models.py:17-29 | A new listing stores every given field as given. It is available, created now, and in the given category, or "other" when none is given. It fits the columns iff the title is at most 200 characters, the name, company and location at most 100, and the amounts below 10^10 hundredths. |
| Listings.ListingToString | thryve/thryve_app/models.py:31-32 | The string form of a valid listing has at most 200 characters. |
| ListingForm.ValidateImagesCount | thryve/marketplace_app/forms.py:6-11 | Fails iff new plus existing images exceed 5, with both counts in the error; otherwise returns true. |
| ListingForm.ValidateImageFile | thryve/marketplace_app/forms.py:14-24 | Fails iff the file is over 5 MiB or has a content type outside the four allowed. Size is checked first. Exactly 5 MiB with no content type passes. |
| ListingForm.CleanDescription | thryve/marketplace_app/forms.py:77-85 | A missing or empty description passes unchanged. Otherwise whitespace runs are collapsed and the ends trimmed. The result fails as too long above 5000, then as too short below 10; a passing result is trimmed and already collapsed. |
| ListingForm.CleanDate | thryve/marketplace_app/forms.py:87-93 | Fails iff a date is given and is strictly before today; otherwise returns the date. |
| ListingForm.Clean | thryve/marketplace_app/forms.py:95-123 | Each error arises exactly under its rule: sale without a truthy price or with a negative one, swap with a blank swap_for, buy likewise with the budget, then an empty raw category. Otherwise the data is returned unchanged. |
| ListingForm.FormFields.constructor | thryve/marketplace_app/forms.py:67-75 | Drops the category field, makes the five named fields required and leaves the others' flags as declared. |
| Marketplace.Search | thryve/marketplace_app/views.py:31-46 | The result is newest first and holds every listing that passes the stripped filters, as many times as it occurs, and nothing else. |
| Marketplace.SearchIsExact | thryve/marketplace_app/views.py:37-44 | A listing is shown iff it is in the input and passes every filter given: title contains the query ignoring case, exact category, and a type filter only for sale/swap/buy. |
| Marketplace.NoFilterShowsAll | thryve/marketplace_app/views.py:35-46 | With a blank query, a blank category and no recognised type, every listing is shown. |
| MarketplaceTags.DictGet | thryve/marketplace_app/templatetags/marketplace_tags.py:9-10 | The `dict(...)` lookup finds a label iff some pair has the key, and a found label is paired with that key. |
| MarketplaceTags.GetCategoryDisplay | thryve/marketplace_app/templatetags/marketplace_tags.py:7-10 | A known category key gives its label; an unknown one is returned unchanged. |
| MarketplaceTags.FirstLabel | thryve/marketplace_app/templatetags/marketplace_tags.py:16-18 | The label of the first pair whose key matches, or None when none matches. |
| MarketplaceTags.GetSubcategoryDisplay | thryve/marketplace_app/templatetags/marketplace_tags.py:12-19 | An unknown category, or no matching pair, returns the value unchanged; otherwise the first matching pair's label. |
| Registration.CleanEmail | thryve/auth_app/forms.py:40-44 | Fails with "User already exists" iff the email is non-empty and already registered; otherwise returns it unchanged. |
| Registration.CleanCompanyName | thryve/auth_app/forms.py:46-50 | Fails with "Company name already exists" iff the name is non-empty and already used; otherwise returns it unchanged. |
| Registration.RegisteredEmailIsRefused | thryve/auth_app/forms.py:40-43 | Once an account is registered, its email is refused. |
| Registration.RegisteredCompanyIsRefused | thryve/auth_app/forms.py:46-49 | Once an account is registered, its company name is refused. |
| Registration.RegistrationKeepsColumnsUnique | thryve/auth_app/forms.py:40-50 | Registering an account that passes both checks keeps emails and company names unique. |
| Community.LikedPostIds | thryve/community_app/views.py:20-26 | A post is in the liked set iff the user has a like row for it. |
| Community.WithoutLike | thryve/community_app/views.py:63 | Exactly the user's like rows for the post are deleted; the other rows are kept. |
| Community.Toggle | thryve/community_app/views.py:51-71 | A non-AJAX or non-POST request is a bad request and a missing post is "not found", both without change. Otherwise an absent like is added ("liked") or a present one deleted ("unliked"). new_count is the post's like count afterwards; posts and comments are unchanged. |
| Community.UnlikeRemovesPair | thryve/community_app/views.py:62-64 | Deleting the like removes exactly the (post, user) pair from the liked pairs. |
| Community.LikeAddsPair | thryve/community_app/views.py:58-61 | Creating the like adds exactly the (post, user) pair. |
| Community.HasLikedIffPair | thryve/community_app/models.py:34-41 | A like row exists iff the pair is among the liked pairs. |
| Community.ToggleFlipsOnePair | thryve/community_app/views.py:58-64 | A toggle flips the actor's like of that post and leaves every other (post, user) pair as it was. |
| Community.ToggleKeepsInvariant | thryve/community_app/models.py:39-41 | A toggle keeps at most one like per (post, user), along with the rest of the feed invariant. |
| Community.UnlikeCountsOne | thryve/community_app/models.py:21-24 | With unique likes, deleting a user's like lowers that post's count by one and leaves other posts' like rows alone. |
| Community.LikeCountsOne | thryve/community_app/models.py:21-24 | Creating a like raises that post's count by one and leaves other posts' like rows alone. |
| Community.ToggleMovesCountByOne | thryve/community_app/views.py:58-69 | new_count is the old count plus one after "liked" and minus one after "unliked"; other posts' likes are untouched. |
| Community.ToggleTwiceRestores | thryve/community_app/views.py:58-64 | Two toggles restore the liked pairs and the count, and report opposite actions. |
| Community.CleanCommentContent | thryve/community_app/models.py:60 | Missing or blank content is required, stripped content over 500 characters is too long, and otherwise the stripped content is returned. |
| Community.AddComment | thryve/community_app/views.py:75-116 | Bad request and missing post as in the toggle. Invalid content gives a 400-style error naming the post, with no change. Otherwise one comment bound to the post and actor is added, and the response carries the new count, content, full name, the company name (or "SME User" without a business profile) and date. An invalid answer carries exactly the cleaning error. |
| Community.BusinessName | thryve/community_app/views.py:93-97 | The company name when there is a business profile, "SME User" otherwise. |
| Community.AddCommentKeepsInvariant | thryve/community_app/views.py:84-89 | Adding a comment keeps the feed invariant, including the 500-character bound. |
| Community.AddCommentCountsOne | thryve/community_app/views.py:84-102 | A successful comment raises the post's comment count by one, reports that count, and leaves other posts' comments alone. |
| Community.NewCommentCountsOne | thryve/community_app/models.py:27-30 | A new comment row raises its post's count by one and leaves other posts' rows alone. |
| Community.Publish | thryve/community_app/views.py:36-48 | A POST with non-blank content adds one post by the actor with the stripped content, created now; anything else changes nothing. Likes and comments are never touched. |
| Community.PublishKeepsInvariant | thryve/community_app/views.py:40-45 | Creating a post keeps the feed invariant. |
| Community.NewestFirst | thryve/community_app/models.py:13-14 | Posts are ordered newest first, as a permutation of the input. |
| Community.CommentThread | thryve/community_app/models.py:63-64 | A post's comments are oldest first and are exactly the comments naming the post. |
| Community.CommunityStore.CreateCommunityPost | thryve/community_app/views.py:36-48 | Updates the tables in place exactly as `Publish`, keeping the invariant. |
| Community.CommunityStore.TogglePostLike | thryve/community_app/views.py:51-71 | Updates the tables in place exactly as `Toggle`, keeping the invariant. |
| Community.CommunityStore.AddPostComment | thryve/community_app/views.py:75-116 | Updates the tables in place exactly as `AddComment`, keeping the invariant. |
| Profiles.BlankBusinessProfile | thryve/profile_app/models.py:5-25 | A profile created for a user is blank, fits every column bound and has no logo. |
| Profiles.BlankUserProfile | thryve/profile_app/models.py:43-54 | A profile created for a user fits the bounds and has no avatar. |
| Profiles.ValidateImageSize | thryve/profile_app/models.py:31-35 | Fails iff the size exceeds 5 MiB. |
| Profiles.ValidateImageFormat | thryve/profile_app/models.py:37-41 | Fails iff a content type is present and is not one of the four allowed. |
| Profiles.ValidateAvatar | thryve/profile_app/models.py:48-54 | Both validators run: each error is reported iff its rule fails, and no errors iff both pass. |
| Profiles.GetOrCreate | thryve/profile_app/views.py:15 | Returns a row owned by the user. An existing row is returned with the table unchanged; otherwise the blank row is inserted under the next id. |
| Profiles.GetOrCreateGivesOneRow | thryve/profile_app/views.py:36 | Afterwards exactly one row belongs to the user, and the table still has one row per user. |
| Profiles.GetOrCreateTwiceIsOnce | thryve/profile_app/views.py:65 | A second call returns the same row and leaves the table as the first call left it. |
| Profiles.Save | thryve/profile_app/models.py:59-65 | Save fails with DoesNotExist iff the pk is truthy and has no row, and then changes nothing. It succeeds iff that is not so and no other row belongs to the same user. The old avatar is deleted iff the row exists, it had a file, and the new avatar differs. A second row for the same user is refused. A successful save writes the row under pk or under the next id. |
| Profiles.SaveKeepsKeyed | thryve/profile_app/models.py:43-65 | Any save, whatever the row and the outcome, keeps one profile per user and every key below the next key. |
| Profiles.SaveKeepsValid | thryve/profile_app/models.py:43-65 | Saving a profile within the bounds keeps one profile per user, valid keys and the bounds. |
| Profiles.SameAvatarKeepsFile | thryve/profile_app/models.py:63 | Saving with the same avatar deletes no file. |
| Profiles.NewAvatarDeletesOld | thryve/profile_app/models.py:61-64 | Replacing an existing avatar deletes exactly the old file. |
| Profiles.Initial | thryve/profile_app/views.py:49 | The initial is the upper-cased first letter of the first name, or of the user string when the first name is empty. It is None only when both are empty. |
| Profiles.ColourIndex | thryve/profile_app/views.py:53 | The index is below 10 and congruent to the character code modulo 10. |
| Profiles.ColourClass | thryve/profile_app/views.py:50-53 | The colour is always one of the ten classes. |
| Profiles.ColourIgnoresCase | thryve/profile_app/views.py:49-53 | First names starting with the same letter, in either case, get the same initial and so the same colour. |
| Profiles.ProfileStore.BusinessProfileFor | thryve/profile_app/views.py:15 | In-place get-or-create of the business profile, equal to `GetOrCreate`; user profiles are untouched. |
| Profiles.ProfileStore.UserProfileFor | thryve/profile_app/views.py:36 | In-place get-or-create of the user profile, equal to `GetOrCreate`; business profiles are untouched. |
| Profiles.ProfileStore.SaveUserProfile | thryve/profile_app/models.py:59-65 | Updates the user-profile table in place exactly as `Save`, for any row. It keeps one profile per user and valid keys, and keeps every row within the column bounds when the table and the new row already are. |
| ClientScript.SuggestionDisplayName | thryve/marketplace_app/static/marketplace_app/script.js:188-189 | A name with at most three comma-separated parts is shown unchanged. |
| ClientScript.SuggestionKeepsFirstThreeParts | thryve/marketplace_app/static/marketplace_app/script.js:188-189 | With more than three parts, the shown name is the trim of a text that splits at its commas into exactly the first three parts, the later two after the added space. |
| ClientScript.StripCountsNoMore | thryve/marketplace_app/static/marketplace_app/script.js:189 | Trimming never adds commas. |
| ClientScript.JoinThreeCommas | thryve/marketplace_app/static/marketplace_app/script.js:189 | Joining three comma-free parts with ", " gives exactly two commas. |
| ClientScript.SuggestionHasAtMostThreeParts | thryve/marketplace_app/static/marketplace_app/script.js:188-189 | A shown name always has at most three comma-separated parts, so truncating it again changes nothing. |
| ClientScript.SubcategoryValue | thryve/marketplace_app/static/marketplace_app/script.js:284 | The value is the category, a '-', and the subcategory. |
| ClientScript.SelectedSubcategory | thryve/marketplace_app/static/marketplace_app/script.js:408 | `split('-')[1]` exists iff the value has a '-', and it has no '-'. |
| ClientScript.SubcategoryRoundTrip | thryve/marketplace_app/static/marketplace_app/script.js:408 | With no '-' in either part, the selector recovers the subcategory it encoded. |
| ClientScript.DashInSubcategoryIsCut | thryve/marketplace_app/static/marketplace_app/script.js:408 | A subcategory containing '-' is recovered only up to its first '-'. |
| ClientScript.AfterPicking | thryve/marketplace_app/static/marketplace_app/script.js:521-532 | The list never exceeds 5. Earlier picks are kept, and only the first 5 − count new files are appended. |
| ClientScript.ImagePicker.constructor | thryve/marketplace_app/static/marketplace_app/script.js:514 | The picker starts empty. |
| ClientScript.ImagePicker.Pick | thryve/marketplace_app/static/marketplace_app/script.js:516-532 | The loop appends in place, giving `AfterPicking`; a non-empty pick is refused iff the list is full. |
| ClientScript.ImagePicker.Close | thryve/marketplace_app/static/marketplace_app/script.js:581 | Closing the modal empties the list. |
| ClientScript.GalleryImages | thryve/marketplace_app/static/marketplace_app/script.js:658-678 | The gallery has at least one image: one per comma-separated URL, trimmed, or the placeholder when there is no image data. |
| ClientScript.PrevIndex | thryve/marketplace_app/static/marketplace_app/script.js:723-725 | "Previous" decrements a positive index and keeps 0. |
| ClientScript.NextIndex | thryve/marketplace_app/static/marketplace_app/script.js:726-728 | "Next" increments below the last index, otherwise stays, and keeps the index in range. |
| ClientScript.NextThenPrev | thryve/marketplace_app/static/marketplace_app/script.js:723-728 | "Previous" undoes a "next" that moved. |
| ClientScript.NextReachesLast | thryve/marketplace_app/static/marketplace_app/script.js:726-728 | Pressing "next" n times from 0 reaches min(n, count − 1). |
| ClientScript.Gallery.Open | thryve/marketplace_app/static/marketplace_app/script.js:658-685 | Opening sets the images as `GalleryImages` and the index to 0. |
| ClientScript.Gallery.Prev | thryve/marketplace_app/static/marketplace_app/script.js:723-725 | Moves the index as `PrevIndex`, keeping it in range. |
| ClientScript.Gallery.Next | thryve/marketplace_app/static/marketplace_app/script.js:726-728 | Moves the index as `NextIndex`, keeping it in range. |
| ClientScript.Gallery.Select | thryve/marketplace_app/static/marketplace_app/script.js:707-710 | Clicking a thumbnail makes its index current. |
| PriceInput.Remove | thryve/marketplace_app/static/marketplace_app/script.js:873 | The result has no occurrence of the removed character and no new characters. |
| PriceInput.Sanitize | thryve/marketplace_app/static/marketplace_app/script.js:873 | Only digits and '.' remain, and a string of only those is unchanged. |
| PriceInput.KeepFirstDot | thryve/marketplace_app/static/marketplace_app/script.js:875-879 | At most one '.' remains, and a string with at most one is unchanged. |
| PriceInput.MergeDots | thryve/marketplace_app/static/marketplace_app/script.js:876-879 | The split-and-join code equals the keep-the-first-dot reference. |
| PriceInput.JoinSplitRemoves | thryve/marketplace_app/static/marketplace_app/script.js:878 | Joining the split parts with "" removes the separator. |
| PriceInput.FirstDotStep | thryve/marketplace_app/static/marketplace_app/script.js:876-878 | The first part is the text before the first '.', and the rest joins what follows it. |
| PriceInput.Group | thryve/marketplace_app/static/marketplace_app/script.js:885 | Grouping only adds commas and keeps the first digit first. |
| PriceInput.FormatInteger | thryve/marketplace_app/static/marketplace_app/script.js:885 | The regex replacement equals the recursive three-digit grouping. |
| PriceInput.ShortHasNoCommas | thryve/marketplace_app/static/marketplace_app/script.js:885 | Three digits or fewer get no comma. |
| PriceInput.WithCommasLastThree | thryve/marketplace_app/static/marketplace_app/script.js:885 | A comma goes before the last three digits when something precedes them. |
| PriceInput.WithCommasRemovesToDigits | thryve/marketplace_app/static/marketplace_app/script.js:885 | The comma insertion only adds commas: deleting them gives the digits back. |
| PriceInput.WithCommasAppend | thryve/marketplace_app/static/marketplace_app/script.js:885 | Appending three digits appends a comma and those digits. |
| PriceInput.GroupMatchesRegex | thryve/marketplace_app/static/marketplace_app/script.js:885 | A comma goes at every non-initial position with a multiple of three digits to its right, and nowhere else. |
| PriceInput.GroupRemovesToDigits | thryve/marketplace_app/static/marketplace_app/script.js:885 | Removing the commas from the grouped digits gives the digits back. |
| PriceInput.GroupCommaCount | thryve/marketplace_app/static/marketplace_app/script.js:885 | n digits get (n − 1) / 3 commas. |
| PriceInput.SanitizeFormatted | thryve/marketplace_app/static/marketplace_app/script.js:873 | On formatted text, sanitising just removes the commas. |
| PriceInput.ValueShape | thryve/marketplace_app/static/marketplace_app/script.js:882 | A value with at most one '.' splits into a digit integer part and, when the '.' is present, a digit decimal part. |
| PriceInput.GroupAloneWellFormatted | thryve/marketplace_app/static/marketplace_app/script.js:885-888 | Grouped digits alone are well formatted. |
| PriceInput.GroupWithDecimalsWellFormatted | thryve/marketplace_app/static/marketplace_app/script.js:885-888 | Grouped digits plus '.' plus a digit decimal part, possibly empty, are well formatted. |
| PriceInput.CommasBeforeDot | thryve/marketplace_app/static/marketplace_app/script.js:888 | Commas in the integer part all come before the decimal point. |
| PriceInput.HandlePriceInput | thryve/marketplace_app/static/marketplace_app/script.js:870-889 | The output is well formatted against the sanitised one-dot value: only digits, ',' and at most one '.'; no leading comma; commas only before the '.'; removing the commas gives the value. |
| PriceInput.PriceInputIdempotent | thryve/marketplace_app/static/marketplace_app/script.js:870-889 | Formatting its own output changes nothing. |
| PriceInput.PriceGroupsThousands | thryve/marketplace_app/static/marketplace_app/script.js:885 | Appending three digits to a number appends a comma and those digits to its formatted form. |
| Text.Strip | thryve/thryve_app/views.py:97 | The result is trimmed, empty iff the input is all whitespace, and a trimmed input is unchanged. |
| Text.SplitOn | thryve/marketplace_app/static/marketplace_app/script.js:188 | There is at least one part, and no part contains the separator. |
| Text.JoinOfSplit | thryve/marketplace_app/static/marketplace_app/script.js:188 | Joining the parts of a split with the separator gives the original string. |
| Text.SplitOfJoin | thryve/marketplace_app/static/marketplace_app/script.js:189 | Splitting the join of separator-free parts gives the parts back. |
| Text.SplitCount | thryve/marketplace_app/static/marketplace_app/script.js:188 | A split has one more part than the string has separators. |
| Text.CollapseIdempotent | thryve/marketplace_app/forms.py:80 | Collapsing twice equals collapsing once; the result is trimmed and empty iff the input is blank. |
| Text.WordsOfJoin | thryve/marketplace_app/forms.py:80 | Splitting a space-joined word list gives the words back. |
| Text.WordsEmptyIffBlank | thryve/marketplace_app/forms.py:79-80 | `split()` gives no words iff the string is all whitespace. |
| Text.JoinedWordsTrimmed | thryve/marketplace_app/forms.py:80-83 | A space-joined word list is trimmed, and non-empty when there are words. |
| Text.Lower | thryve/marketplace_app/views.py:38 | A lower-cased character is not an upper-case ASCII letter. Upper-case letters map to lower-case letters, and every other character is unchanged. |
| Text.Upper | thryve/profile_app/views.py:49 | An upper-cased character is not a lower-case ASCII letter. Lower-case letters map to upper-case letters, every other character is unchanged, and the character lower-cases to the same as the original. |
| Text.LowerAll | thryve/marketplace_app/views.py:38 | Lower-casing keeps the length. |
| Text.LowerAllIdempotent | thryve/marketplace_app/views.py:38 | Lower-casing twice equals lower-casing once. |
| Text.ContainsIgnoreCaseIgnoresCase | thryve/thryve_app/views.py:127-129 | `icontains` gives the same answer when either argument is lower-cased first. |
| QuerySets.Where | thryve/marketplace_app/views.py:37-44 | The filter keeps each element that passes, as many times as it occurs, drops the rest and never grows. |
| QuerySets.InWhere | thryve/marketplace_app/views.py:37-44 | An element is in the filtered set iff it was in the input and passes. |
| QuerySets.InsertDescending | thryve/marketplace_app/views.py:46 | Inserting into a descending sequence keeps it descending and adds exactly that element. |
| QuerySets.SortDescending | thryve/marketplace_app/views.py:46 | `order_by('-created_at')`: descending, and a permutation of the input. |
| QuerySets.SortAscending | thryve/community_app/models.py:64 | `ordering = ['created_at']`: ascending, and a permutation of the input. |

## Left out

- The HTTP layer of the connection views is left out: login, the POST/AJAX guard, JSON message texts and receiver names. Each view is modelled from its lookup onwards. The community views keep their guard.
- Id parsing is left out. The connection views read ids as POST strings. A missing id is `None`, which the lookup reads as "IS NULL", so it raises the `DoesNotExist` every view catches. An empty or non-numeric string makes the lookup raise `ValueError`, which no view catches (a server error). The model takes ids as natural numbers.
- Templates, redirects, `messages`, the session pop and replay of the marketplace view, and the dashboard's placeholder data are left out. They compute nothing the model depends on.
- Concurrency is left out. Each view is atomic, so the check-then-create races in send and toggle are not modelled.
- Text handling is ASCII-only:
  - case-insensitive matching (`icontains`) and `.upper()` fold ASCII letters only;
  - Unicode case folding, and initials whose upper case is longer than one character, are not modelled.
- Booking views and status transitions are not modelled: `thryve/booking_app/views.py` only renders the bookings template. The record, its enumeration and its constraints are modelled.
- The receiver of a booking request is documented as the listing's owner, but nothing in the record enforces it, so neither does the model.
- Bookings.Insert: which of the two booking constraints the database reports first is not modelled; both surface as one integrity error.
- Password rules are not modelled. The password validators are not part of this model.
- Marketplace.Search: as written, the marketplace view raises `ImportError` on every call. It imports `LISTING_TYPES` from `thryve_app.views`, which defines no such name. It also calls `Listing.get_categories_dict()`, which `Listing` does not define. The model gives the evidently intended filter and ordering.
- Profiles.Initial: as written, none of the three profile views runs.
  - `thryve/profile_app/views.py:7` imports `BusinessProfileForm` and `BusinessLogoForm`, which `profile_app/forms.py` does not define, so the module raises `ImportError`.
  - `profile_customization_view` would also pass `instance=` and `user=` to the plain `forms.Form` `ProfileCustomizationForm`. That is a `TypeError` before the initial is computed.
  - The model gives the evidently intended initial.
- Profiles.ColourIndex: as written, unreachable for the same `ImportError` and `TypeError`. The model gives the intended colour index.
- Profiles.ColourClass: as written, unreachable for the same reasons. The model gives the intended colour class.
- Profiles.ProfileStore.BusinessProfileFor: as written, `business_profile_view` and `business_logo` never run, because of the same `ImportError`. The model gives the intended get-or-create.
- Profiles.ProfileStore.UserProfileFor: as written, `profile_customization_view` never runs, because of the same `ImportError`. The model gives the intended get-or-create.
- MarketplaceTags.GetSubcategoryDisplay: `Listing` declares no `SUBCATEGORY_CHOICES`, so the tag as written raises `AttributeError` on every call. The model gives the evidently intended lookup over a subcategory table passed as a parameter.
- The form's `date` field is not a column of `Listing`, and the form declares no `date` field of its own. Yet `Meta.fields` lists it (`thryve/marketplace_app/forms.py:46`). Django then refuses the class statement with `FieldError`, so the module as written cannot be imported and none of its validators runs. The `ListingForm.*` members model the evidently intended form, with the date given as an optional day number.
- ListingForm.CleanDate: as written, unreachable because of that `FieldError`. The model checks the date against a `today` parameter.
- ListingForm.Clean: as written, unreachable because of that `FieldError`. The model gives the intended cross-field rules.
- ListingForm.CleanDescription: as written, unreachable because of that `FieldError`. The model gives the intended cleaning.
- ListingForm.FormFields.constructor: as written, never runs because of that `FieldError`. The model gives the intended field flags.
- ListingForm.ValidateImagesCount: as written, not importable because of that `FieldError`. The model gives the intended check.
- ListingForm.ValidateImageFile: as written, not importable because of that `FieldError`. The model gives the intended check.
- Community.AddComment: `created_at` is returned as the creation time number, not as the `strftime` text.
- Community.CleanCommentContent: Django's null-character check on text fields is not modelled. The same holds for the post content of `Community.Publish` and `CommunityPostForm`.
- File storage is reduced to a list of deleted avatar names, and upload storage paths are left out.
- The geocoder and booking `fetch` calls in the browser script, the DOM updates, the photo counter text, `FileReader` and `DataTransfer` are left out as browser I/O.
- The default lengths of the URL and email columns of `BusinessProfile` are not bounded in the model.
- Profiles.ProfileStore.SaveUserProfile: the column lengths of `display_name` (100) and `tagline` (200) are not checked by `save` or by `ProfileCustomizationForm`. Whether the database refuses an over-long value depends on the backend, which is not part of this model. So an over-long row is stored as given, and the store's invariant does not include the bounds.
- Profiles.GetOrCreate: requires at most one row per user. The one-to-one column guarantees this in the database, and `Profiles.GetOrCreateGivesOneRow` shows that calling it keeps it.
- PriceInput.FormatInteger: the comma regex is modelled on strings of digits only. Sanitising guarantees such strings before it runs.
- ClientScript.SuggestionDisplayName: the display name is a string parameter; the JSON of the suggestion service is left out.
