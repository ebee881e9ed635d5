# Engagement store with a diversity score and opinion drift

This project models the core of a proof-of-concept social feed (`app.py`). The feed ranks content by how politically diverse its audience is. The model covers:

- **Users.** Each user carries a profile with three political dimensions: left–right, liberal–conservative and zionist–anti. Each value lies in [-1, 1].
- **Content.** Users write posts and comments, and react to them with a kind: like, love, angry, laugh, interested or empathy.
- **Recording a reaction.** The store:
  - logs the reaction;
  - appends a summary of it to the post or comment it names, if that target exists;
  - recomputes that target's **diversity score**;
  - then runs the **drift pass** over all users.
- **Diversity score.** The three per-dimension population variances of the reacting users' profiles are summed, divided by 3·4 and multiplied by 100. The score is 0 with fewer than two reactions, or with fewer than two reactions from known users.
- **Drift pass.** Users are visited in id order. Each user's profile moves a tenth of the way toward the mean profile of the authors of everything that user reacted to positively (like, love, interested, empathy). The update is in place, so later users read the updated profiles of earlier ones.
- **Read-only views.** The posts by descending score, a post's comments by descending score, the users in id order, and aggregate statistics.

## Modules

- `profiles.dfy`, module `Profiles`: the dimensions and the profile record.
- `engagement.dfy`, module `Engagement`: users, posts, comments and reactions as datatypes, plus the first-match lookups by id.
- `real_seqs.dfy`, module `RealSeqs`: sum, mean and population variance over sequences of reals, including:
  - the variance does not depend on order;
  - the variance of values in [-1, 1] is at most 1.
- `diversity.dfy`, module `Diversity`: the score, and what can be proved about it.
- `drift.dfy`, module `Drift`: the drift pass as a reference definition that visits users one at a time, and its properties.
- `listings.dfy`, module `Listings`: the sorted listings and the statistics. These are pure functions.
- `store.dfy`, module `Store`: the class `EngagementStore`, whose methods change `users`, `posts`, `comments` and `reactions` in place. It contains:
  - the create handlers;
  - recording a reaction;
  - the drift pass as a `for` loop over user ids, with each profile updated by a loop over the dimensions.

## Where the code and its description differ

The model follows the code in each case.

- **Score range.** The code comments promise a score between 0 and 100, on the assumption that the variance can reach 4 per dimension. The population variance of values in [-1, 1] is at most 1, so the score never exceeds 25. Two respondents at opposite extremes reach exactly 25 (`Diversity.ScoreBounds`, `Diversity.ScoreOppositeExtremes`).
- **Drift pass order.** The drift pass is not a snapshot computation. It updates profiles in place, in id order, so running it twice is not the same as running it once.
- **Repeated reactions.** The score counts reactions, not distinct users. A user who reacts twice to the same target counts twice (`Diversity.RespondentsOfKnown`, `Diversity.KnownReactionsContents`). The same holds for the drift pass: a user who reacts positively twice to one author's content weights that author twice in the mean (`Drift.TargetProfilesOfActive`, `Drift.ActiveContents`).
- **Score timing.** A target's score is computed with the profiles as they stand before the drift pass that follows the reaction.
- **Early reactions.** A reaction that named a post or comment before it existed stays in the log. It counts toward that target's score, and its author pulls in the drift pass, once the target exists.

## Model

| member | source | states |
|---|---|---|
| Profiles.Profile.Set | app.py:151 | writing one dimension of a profile sets that dimension to the new value and leaves the other two unchanged |
| Profiles.ProfileExtensionality | app.py:19-25 | a profile is determined by its three dimension values |
| Profiles.DimensionsEnumerate | app.py:19 | the dimension list contains every dimension exactly once |
| Engagement.ReactionKind.IsPositive | app.py:123-128 | a kind is positive exactly when it is like, love, interested or empathy; angry, laugh and every unlisted kind are not |
| Engagement.ParseKind | app.py:16 | every request string maps to one canonical kind, which is unlisted exactly when the string is none of the six listed names |
| Engagement.KindRoundTrip | app.py:16 | parsing a string and naming the kind gives the string back, and naming a canonical kind and parsing gives the kind back |
| Engagement.ParseTarget | app.py:137-141 | every request string maps to one canonical target type, which is "other" exactly when the string is neither "post" nor "comment" |
| Engagement.TargetRoundTrip | app.py:80 | parsing and naming target types are inverse on canonical target types |
| Engagement.FindPost | app.py:138 | the lookup returns the index of the first post with the id; it returns nothing exactly when no post has that id |
| Engagement.FindComment | app.py:142 | the same for comments |
| Engagement.FindPostSequential | app.py:216-217 | with post ids 1..n, id k resolves to position k-1 and any other id to nothing |
| Engagement.FindCommentSequential | app.py:227-228 | the same for comment ids |
| Engagement.TargetAuthor | app.py:136-144 | a reaction resolves to an author exactly when it names a post or comment that exists, and the author is that target's author |
| Engagement.FindSameIds | app.py:138-142 | lookups by id depend only on the ids of the stored items |
| Engagement.TargetAuthorKeepsShape | app.py:218-224 | adding a summary or a new score to a target does not change which author any reaction resolves to |
| Engagement.ReactionsTo | app.py:223 | the filtered list holds exactly the logged reactions that name the given target kind and id, each as often as in the log |
| RealSeqs.Variance | app.py:107-109 | a population variance is never negative |
| RealSeqs.MeanTimesCount | app.py:107 | the mean times the number of values is their sum |
| RealSeqs.MeanBounds | app.py:149 | the mean of values in [lo, hi] lies in [lo, hi] |
| RealSeqs.VariancePermutation | app.py:107-109 | the variance does not depend on the order of the values |
| RealSeqs.VarianceAtMostOne | app.py:109-112 | values in [-1, 1] have population variance at most 1 |
| RealSeqs.VarianceConstant | app.py:107-109 | identical values have variance 0 |
| Diversity.Values | app.py:106 | the values of one dimension are taken from each profile in order |
| Diversity.Respondents | app.py:94-98 | there are never more respondent profiles than reactions |
| Diversity.KnownReactions | app.py:95-97 | only reactions from existing users are kept, never more than the log holds |
| Diversity.KnownReactionsContents | app.py:95-97 | the kept reactions are exactly those whose user exists, each as often as in the log |
| Diversity.RespondentsOfKnown | app.py:94-98 | there is exactly one respondent profile per reaction from an existing user, in order, and the i-th is that reaction's user's profile, so a user who reacts twice counts twice |
| Diversity.ScoreFewKnown | app.py:100-101 | fewer than two reactions from existing users give a score of 0 |
| Diversity.RespondentSource | app.py:94-98 | every respondent profile is the current profile of a known user who made one of the reactions |
| Diversity.RespondentsConcat | app.py:95-98 | collecting respondents distributes over concatenating reaction lists |
| Diversity.RespondentsPermutation | app.py:95-98 | permuting the reactions permutes the respondent profiles |
| Diversity.TotalVariance | app.py:104-110 | the summed variance over the dimensions is never negative |
| Diversity.Score | app.py:85-115 | the score is 0 with fewer than two reactions or with fewer than two known respondents, and is never negative |
| Diversity.TotalVariancePermutation | app.py:104-110 | the summed variance does not depend on the order of the profiles |
| Diversity.ScorePermutation | app.py:85-115 | the score does not depend on the order of the reactions |
| Diversity.TotalVarianceAtMost | app.py:104-110 | with every profile in [-1, 1], the summed variance is at most the number of dimensions |
| Diversity.ScoreBounds | app.py:104-113 | with every profile in [-1, 1], the score lies in [0, 25] |
| Diversity.TotalVarianceIdentical | app.py:104-110 | identical profiles have summed variance 0 |
| Diversity.ScoreIdenticalProfiles | app.py:85-115 | when every reacting known user holds the same profile, the score is 0 |
| Diversity.ThreeDimensions | app.py:104-110 | the summed variance is the left–right variance plus the liberal–conservative variance plus the zionist–anti variance |
| Diversity.VarianceOfOpposites | app.py:107-109 | the values a and -a, for a = ±1, have variance 1 |
| Diversity.VarianceWithCentre | app.py:107-109 | the values a, -a and 0, for a = ±1, have variance 2/3 |
| Diversity.ScoreOppositeExtremes | app.py:104-113 | two respondents at opposite extremes on every dimension give exactly 25 |
| Diversity.ScoreWithCentrist | app.py:85-115 | adding a centrist respondent to two opposite extremes lowers the score from 25 to 50/3 |
| Drift.Contribution | app.py:136-144 | one reaction adds at most one author profile to a user's targets |
| Drift.TargetProfiles | app.py:126-144 | a user never has more target profiles than there are logged reactions |
| Drift.Blend | app.py:151 | the blended coordinate lies between the old value and the mean, and differs from the old value unless the two are equal |
| Drift.Drifted | app.py:148-151 | every coordinate of the drifted profile is the old coordinate blended with the mean of the targets' values on that dimension |
| Drift.DriftUser | app.py:122-151 | visiting one user changes at most that user's profile, and keeps every id and name |
| Drift.DriftUpTo | app.py:122-151 | after visiting users 1..n, the users not yet visited are unchanged, and every id and name is kept |
| Drift.DriftUpToStep | app.py:122 | visiting users 1..n is visiting users 1..n-1, then user n |
| Drift.DriftAll | app.py:117-151 | the pass keeps the set of users, their names and the ids 1..n |
| Drift.TargetProfilesEmpty | app.py:126-146 | a user has no targets exactly when none of that user's positive reactions names an existing post or comment |
| Drift.DriftUserUnchanged | app.py:131-132 | such a user's visit changes nothing |
| Drift.DriftUpToKeepsInactive | app.py:122-151 | such a user's profile comes out of a partial pass unchanged |
| Drift.DriftAllKeepsInactive | app.py:117-151 | such a user's profile comes out of the whole pass unchanged |
| Drift.TargetProfilesIgnoresInert | app.py:123-144 | a reaction that is angry, laugh or an unlisted kind, comes from an unknown user, or names a missing target adds no target profile |
| Drift.DriftUpToIgnoresInert | app.py:122-151 | logging such a reaction leaves every partial pass as it was |
| Drift.DriftAllIgnoresInert | app.py:117-151 | logging such a reaction leaves the whole pass as it was |
| Drift.AuthorsPresentKeepsShape | app.py:218-235 | re-scoring a post or comment keeps every logged reaction's author known |
| Drift.AuthorsPresentAppend | app.py:136-144 | appending a reaction keeps every author resolvable exactly when the new reaction's author is resolvable |
| Drift.AuthorsRegistered | app.py:138-144 | when every post and comment author is a registered user, no reaction log can make the author lookup fail |
| Drift.TargetProfilesSource | app.py:126-144 | every target profile of a user is the current profile of the author of a post or comment that this user reacted to positively in the log |
| Drift.Active | app.py:126-144 | the kept reactions are the user's own positive reactions that name an existing post or comment, in log order |
| Drift.ActiveContents | app.py:126-144 | the kept reactions are exactly those, each as often as in the log |
| Drift.TargetProfilesOfActive | app.py:135-144 | there is exactly one target profile per such reaction, in order, and the i-th is the profile of the author that the i-th such reaction names, so an author reacted to twice counts twice in the mean |
| Drift.DriftedIsConvex | app.py:148-151 | each drifted coordinate is 0.9·old + 0.1·mean; its distance to the mean is exactly 0.9 of the old distance; it stays in [-1, 1] when the old value and all target values do |
| Drift.DriftedInBounds | app.py:148-151 | drifting a profile in [-1, 1] toward targets in [-1, 1] keeps it in [-1, 1] |
| Drift.TargetProfilesInBounds | app.py:135-144 | every target profile lies in [-1, 1] when every user's profile does |
| Drift.DriftUpToInBounds | app.py:122-151 | a partial pass keeps every profile in [-1, 1] |
| Drift.DriftAllInBounds | app.py:117-151 | the whole pass keeps every profile in [-1, 1] |
| Listings.InsertByKey | app.py:186 | inserting into a list in non-increasing order keeps it non-increasing and adds exactly the one element |
| Listings.SortByKeyDescending | app.py:186 | the result is in non-increasing key order and is a permutation of the input |
| Listings.WithKey | app.py:186 | the filter keeps only elements with the given key, never more than the input holds |
| Listings.InsertByKeyStable | app.py:186 | inserting puts the new element ahead of every element with the same key and keeps their order |
| Listings.SortStable | app.py:186 | the sort is stable: for every key value, the elements with that key come out in their input order |
| Listings.PostListing | app.py:185-187 | the post listing is a permutation of all posts, in non-increasing diversity score |
| Listings.PostListingStable | app.py:185-187 | posts with equal scores are listed in creation order |
| Listings.CommentsOf | app.py:199 | the filter keeps exactly the comments with the given post id, each as often as in the store |
| Listings.CommentListing | app.py:198-201 | the comment listing holds exactly the comments of the post, each as often as in the store, in non-increasing diversity score |
| Listings.CommentListingStable | app.py:198-201 | a post's comments with equal scores are listed in creation order |
| Listings.UserListing | app.py:174 | the user listing has one entry per user, with user k at position k-1 |
| Listings.AverageScore | app.py:250 | the average is 0 when there are no posts |
| Listings.AverageScoreBounds | app.py:250 | when every post score lies in [lo, hi], so does the average; with no posts the average is 0, which must then lie in [lo, hi] |
| Listings.GetStats | app.py:242-251 | the counts equal the store sizes; the average is 0 without posts, and lies in [0, 25] when every post score does |
| Store.DriftProfile | app.py:146-151 | the loop over the dimensions computes the drift rule: each coordinate is blended with the targets' mean |
| Store.EngagementStore.constructor | app.py:9-13 | the store starts empty |
| Store.EngagementStore.CreateUser | app.py:159-171 | the new user gets id len+1, an id not yet taken; it is added to the user map; nothing else changes; ids stay 1..n |
| Store.EngagementStore.CreatePost | app.py:176-183 | a post with id len+1, no reactions and score 0 is appended; nothing else changes; post ids stay 1..n |
| Store.EngagementStore.CreateComment | app.py:189-195 | a comment with id len+1, no reactions and score 0 is appended; nothing else changes; comment ids stay 1..n |
| Store.EngagementStore.TargetsOf | app.py:126-144 | the loop over the log collects exactly the user's target profiles, in log order |
| Store.EngagementStore.DriftPass | app.py:117-151 | the loop over user ids leaves the posts, comments and log unchanged, and produces exactly the sequential in-place pass |
| Store.EngagementStore.DriftUser | app.py:122-151 | one iteration updates the user's profile exactly as the pass's visit to that user does |
| Store.EngagementStore.UpdateTarget | app.py:214-235 | only the post or comment that the kind and id resolve to changes: it gets the summary appended and the score over every logged reaction naming it; the users and the log are unchanged |
| Store.EngagementStore.UpdatePost | app.py:215-224 | the first post with the id gets the summary and its new score; every other post and every comment is unchanged |
| Store.EngagementStore.UpdateComment | app.py:226-235 | the first comment with the id gets the summary and its new score; every other comment and every post is unchanged |
| Store.EngagementStore.RecordReaction | app.py:203-240 | the reaction is appended to the log exactly once; only the one resolved post or comment changes, getting the summary and the score over all logged reactions naming it computed with the pre-drift profiles; the users become the drift pass over the new log; profiles stay in [-1, 1] and scores in [0, 25] |

## Left out

- HTTP routing, request parsing, JSON responses and template rendering (app.py:1-7, 155-157, 253-254). These are input and output plumbing.
- The `to_dict` serialisation (app.py:28-33, 44-53, 65-75), and with it the error raised when a post or comment names an unknown author. The post or comment is appended before that error, and the model appends it in the same way.
- Timestamps (app.py:40, 61, 83). They are clock reads and nothing in the core reads them.
- `User.reaction_history` (app.py:26). It is never filled or read.
- The random profile (app.py:167-169). `Store.EngagementStore.CreateUser` takes the profile as a parameter, and requires it to lie in [-1, 1], as `random.uniform(-1, 1)` guarantees.
- `round(…, 2)` of the score (app.py:115), and floating point in general. Scores and profiles are unbounded reals, so the model does not capture rounding error.
- Diversity.Score: the score is the unrounded value. The bounds and the zero and permutation facts carry over to the rounded value, but the model does not prove that.
- Store.EngagementStore.DriftPass: unguarded access to an unknown author raises an error at app.py:140 and 144. The model makes "every positive reaction from a known user that names an existing target has a known author" (`Drift.AuthorsPresent`) a precondition, instead of modelling the error.
- Store.EngagementStore.RecordReaction: requires the same precondition of the log with the new reaction appended.
- The user map is iterated in insertion order, which is id order because users are never removed. The model relies on that through `Engagement.DenseUserIds`.
- A reaction whose target type is neither "post" nor "comment" is kept as `OtherTarget`, and a reaction kind outside the six listed as `Unlisted`. The source accepts any such string, and so does the model.
- Store.EngagementStore.RecordReaction: requires the kind and target type to be canonical (`Canonical`), so that a listed name is never carried as `Unlisted("like")` or `OtherTarget("post")`. Every request string parses to exactly one canonical value (`Engagement.ParseKind`, `Engagement.ParseTarget`), so no request is excluded. The store invariant `Valid` keeps every logged reaction canonical, so the kind and target comparisons match the source's string comparisons (app.py:128, 137, 223). The parsing of the JSON body itself is left out.
- Concurrency. The server may run handlers on several threads (app.py:254), so two requests could interleave, for example two user creations reading the same `len(users)` at app.py:163. The model treats each handler as one atomic step on the store.
