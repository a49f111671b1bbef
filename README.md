# Photo cleaner: duplicate detection and review, modelled in Dafny

This project models the core of a browser photo-cleaning app. Its parts:

- **Two duplicate-detection passes of `imageHash.ts`.**
  - The exact pass, `findDuplicates`, groups photos whose sizes are within 10% or whose names are equal.
  - The perceptual pass, `findSimilarPhotos`, groups photos whose 32 x 32 average-hash fingerprints are similar enough under a Hamming metric.
- **The analysis hook `usePhotoAnalysis`.** It runs the two passes and derives three views from their results: the id-deduplicated union, the buckets by group id and the space savings.
- **The object-url registry.**
- **The page state of `page.tsx`.** The photo list and the counters of deleted photos and freed bytes.
- **The state machines of the three review components:** the grid with its selection, the side-by-side comparison and the swipe review.

## Module layout

| module | file | what it holds |
|---|---|---|
| `Photos` | `photos.dfy` | The photo record, `Option`, and the list helpers. |
| `Hamming` | `hamming.dfy` | The similarity metric, as a function on strings. |
| `AverageHash` | `average_hash.dfy` | The fingerprint as a function of the raster bytes. |
| `ImageHashing` | `image_hasher.dfy` | The `ImageHasher` class. Its loops are proved equal to those functions. Also holds the id-to-hash table. |
| `GreedyClustering` | `greedy_clustering.dfy` | The forward single-pass clustering both passes run, written as a fold (`Run`) over one `Criterion`. |
| `ClusteringInvariant` | `clustering_invariant.dfy` | The invariant of that fold and its preservation. |
| `ClusteringFacts` | `clustering_facts.dfy` | What a finished pass guarantees. |
| `DuplicateSearch` | `duplicate_search.dfy` | The two passes as the nested loops they are. They annotate an array of photo records in place and are proved equal to `Run`. |
| `PhotoAnalysis` | `photo_analysis.dfy` | The analysis hook, as a class over the photo array, with the derived views. |
| `ObjectUrls` | `object_urls.dfy` | The registry, as a class, with its specification on values. |
| `HomePage` | `home_page.dfy` | The page state. |
| `PhotoGrid`, `ComparisonView`, `SwipeReview` | `photo_grid.dfy`, `comparison_view.dfy`, `swipe_review.dfy` | The three review components. |

## How photos and components are represented

**Photo records.** The passes mutate photo records in place and return JavaScript references to them. The model represents a reference as the record's position in the analysed array (`Ref`). This way, a record seen through either pass's result list carries its latest annotation, as it does in the app.

**Group ids.** The source builds group ids from `Date.now()` and `Math.random()`. The model draws them from an injected counter: `"group-"` or `"similar-"` followed by the counter value in decimal. `ClusteringFacts.LabelInjective` and `ClusteringFacts.PassLabelsDiffer` prove that these ids tell groups apart.

**React components.** Each component is a class whose fields are its state variables. Each handler is a method whose new state is a named function of the old state. An `Apply`/`Replay` pair folds a session of handler calls, and the lemmas about whole sessions are stated about that fold.

## Behaviour of the code worth knowing

The model follows the code in every case below.

- **Size rule with a size-0 anchor.** The size ratio divides by the anchor's size. For a zero-byte anchor it is NaN or Infinity, so the size rule never fires for it (`GreedyClustering.SizeClose`, `ClusteringFacts.SizeCloseIff`).
- **Double push in the exact pass.** The size rule and the name rule are tested one after the other, with no check in between. A photo meeting both is pushed, and returned, twice (`ClusteringFacts.MetadataFoundTwice`). `getAllDuplicates` removes the repeat (`PhotoAnalysis.AllDuplicatesUnique`).
- **Comparing fingerprints.** `calculateSimilarity` returns 0 for fingerprints of different lengths. For two empty fingerprints it returns 0/0, which is NaN (`Hamming.Similarity`).
- **The threshold.** `findSimilarPhotos` compares the similarity with whatever threshold it is given; no range is checked (`ClusteringFacts.FingerprintJoins`).
- **Hashless photos in the perceptual pass.** A photo without a hash is skipped before it is marked processed. It is never marked processed, anchors nothing and joins no group (`ClusteringFacts.NoHashUntouched`).
- **No cancellation.** Once `analyzePhotos` starts, it runs both passes to the end.
- **Flags from an earlier analysis stay.** Neither pass ever clears `isDuplicate`, `group` or `similarityScore`; both only set them on the photos that join a group. After a delete, the page hands the same photo records to a fresh analysis, so a photo flagged by an earlier run stays flagged even when it no longer has a partner. The grid's `isDuplicate` filter and `getAllDuplicates` can then disagree (`ClusteringFacts.OthersUnchanged`: photos outside every group leave the pass exactly as they entered it).
- **Undo.** The swipe review's undo does not restore the photo; the delete report stays. Undo only drops the photo from the buffer and steps the index back (`SwipeReview.Undone`, `SwipeReview.UndoAfterLeftSwipe`).

## Model

| member | source | states |
|---|---|---|
| Photos.Without | src/lib/objectUrlRegistry.ts:14 | Deleting from an insertion-ordered set: an element remains exactly when it was there and is not the one deleted; the list never grows. |
| Photos.WithoutNoDuplicates | src/components/PhotoGrid.tsx:29-30 | Deleting from a list without repeats leaves a list without repeats. |
| Hamming.Mismatches | src/lib/imageHash.ts:77-82 | The difference count of two equal-length fingerprints is at most their length. |
| Hamming.MismatchesSymmetric | src/lib/imageHash.ts:77-82 | The difference count does not depend on the order of the two fingerprints. |
| Hamming.MismatchesZeroIff | src/lib/imageHash.ts:77-82 | No differences exactly when the two fingerprints are equal. |
| Hamming.Similarity | src/lib/imageHash.ts:74-85 | The similarity is NaN exactly for two empty fingerprints, and any other similarity is a number between 0 and 1. |
| Hamming.SimilaritySymmetric | src/lib/imageHash.ts:74-85 | Similarity is symmetric, including the different-length case. |
| Hamming.SimilarityOneIff | src/lib/imageHash.ts:74-85 | Similarity is 1 exactly for two identical non-empty fingerprints. |
| Hamming.DefaultThresholdOnFullFingerprints | src/lib/imageHash.ts:181-183 | On 1024-position fingerprints, the threshold 0.85 is met exactly when at most 153 positions differ. |
| Hamming.SimilarityFallsWithMismatches | src/lib/imageHash.ts:77-84 | On fingerprints of one common length, more differing positions never give a higher similarity, and strictly more give a strictly lower one. |
| AverageHash.Luma | src/lib/imageHash.ts:58 | The grey value of a pixel lies in 0..255. |
| AverageHash.Grays | src/lib/imageHash.ts:57-61 | There is one grey value per four raster bytes. |
| AverageHash.Hash | src/lib/imageHash.ts:54-71 | The fingerprint has one character per pixel, each '0' or '1'. |
| AverageHash.Bits | src/lib/imageHash.ts:63-69 | The second loop writes one '0' or '1' per grey value. |
| AverageHash.GrayAt | src/lib/imageHash.ts:57-59 | Grey value k is computed from bytes 4k, 4k+1 and 4k+2 of the raster. |
| AverageHash.AlphaNeverRead | src/lib/imageHash.ts:57-58 | Rasters that differ only in alpha bytes have the same fingerprint. |
| AverageHash.GraysIgnoreAlpha | src/lib/imageHash.ts:57-61 | Rasters that differ only in alpha bytes have the same grey values. |
| AverageHash.BitIsAboveMean | src/lib/imageHash.ts:63-69 | Bit k is '1' exactly when grey value k is strictly above the real-valued mean: total divided by the pixel count. |
| AverageHash.UniformImageHashesToZeros | src/lib/imageHash.ts:63-69 | An image whose pixels all have one grey value hashes to all '0'. |
| AverageHash.DarkestPixelIsZero | src/lib/imageHash.ts:63-69 | A non-empty image always has a '0' bit, at a darkest pixel. |
| ImageHashing.ImageHasher.constructor | src/lib/imageHash.ts:7-12 | A canvas is available exactly when the code runs in a browser. |
| ImageHashing.ImageHasher.ComputePerceptualHash | src/lib/imageHash.ts:37-72 | Fails exactly when no canvas exists; otherwise returns the average-hash fingerprint of the raster. |
| ImageHashing.ImageHasher.CalculateSimilarity | src/lib/imageHash.ts:74-85 | The difference-counting loop returns the Hamming similarity: 0 for different lengths, NaN for two empty strings. |
| ImageHashing.ImageHasher.GenerateHash | src/lib/imageHash.ts:14-35 | Succeeds exactly when a canvas exists and the image decoded; then returns that image's fingerprint. |
| ImageHashing.Grayscale | src/lib/imageHash.ts:54-61 | The first loop yields the grey values of the raster and their total. |
| ImageHashing.AboveAverage | src/lib/imageHash.ts:66-69 | The second loop yields one bit per grey value: '1' when the value exceeds the mean. |
| ImageHashing.HashTableLookup | src/lib/imageHash.ts:154-160 | With unique ids, a photo's id is in the hash table exactly when its hash succeeded, and it maps to that photo's fingerprint. |
| ImageHashing.HashTableAbsent | src/lib/imageHash.ts:154-160 | Only ids of the photos processed so far are in the table. |
| ImageHashing.NoCanvasNoHashes | src/lib/imageHash.ts:154-160 | Outside a browser every hash fails and the table stays empty. |
| ImageHashing.BuildHashes | src/lib/imageHash.ts:153-160 | The hashing loop builds the table of successful fingerprints; failures are skipped. |
| GreedyClustering.SizeRatio | src/lib/imageHash.ts:117 | The ratio is undefined exactly for a zero-size anchor; otherwise it is the size difference as a non-negative share of the anchor's size. |
| GreedyClustering.SizeClose | src/lib/imageHash.ts:117-118 | The size rule never holds for a zero-size anchor, whose ratio is NaN or Infinity. |
| GreedyClustering.HasHash | src/lib/imageHash.ts:169-172 | Definition only: a hash lookup succeeds when the id is in the table and its hash is not the empty string, which JavaScript treats as false. |
| GreedyClustering.Pushes | src/lib/imageHash.ts:116-127 | The exact pass pushes a later photo at most twice, once per rule; the perceptual pass pushes it at most once. |
| GreedyClustering.Visit | src/lib/imageHash.ts:112-127 | One inner visit only adds to the scan: the processed set grows, and every new group entry is the visited position. |
| GreedyClustering.ScanTo | src/lib/imageHash.ts:111-128 | The inner loop only ever adds to the processed set. |
| GreedyClustering.Step | src/lib/imageHash.ts:104-143 | One outer iteration keeps the collection's length and only sends later photos to the current anchor. |
| GreedyClustering.PassUpTo | src/lib/imageHash.ts:104-143 | After i outer iterations, every follower's anchor is an earlier photo among the first i. |
| GreedyClustering.Run | src/lib/imageHash.ts:99-146 | A pass keeps the collection's length, and every follower lies after its anchor. |
| GreedyClustering.ScanAfterAnchor | src/lib/imageHash.ts:111-128 | The scan of anchor i only pushes photos after i. |
| GreedyClustering.FoundInRange | src/lib/imageHash.ts:133-139 | The returned list only refers to photos of the collection. |
| ClusteringInvariant.ScanFacts | src/lib/imageHash.ts:111-128 | The inner scan marks exactly the pushed photos processed; pushes each joining, unprocessed later photo once per rule it meets, in order; pushes nothing else. |
| ClusteringInvariant.InvInit | src/lib/imageHash.ts:101-102 | The pass invariant holds before the outer loop starts. |
| ClusteringInvariant.StepSkip | src/lib/imageHash.ts:105 | An iteration whose photo is processed, or cannot anchor, preserves the invariant. |
| ClusteringInvariant.StepAnchor | src/lib/imageHash.ts:130-142 | An iteration whose photo anchors a scan preserves the invariant, whether or not it forms a group. |
| ClusteringInvariant.StepInv | src/lib/imageHash.ts:104-143 | Every outer iteration preserves the invariant. |
| ClusteringFacts.PrefixInv | src/lib/imageHash.ts:104-143 | The invariant holds after every prefix of the outer loop. |
| ClusteringFacts.PassInv | src/lib/imageHash.ts:99-146 | The invariant holds at the end of the pass. |
| ClusteringFacts.LabelInjective | src/lib/imageHash.ts:132 | Two group ids of one pass are equal only when they come from the same counter value. |
| ClusteringFacts.PassLabelsDiffer | src/lib/imageHash.ts:191 | A group id of the perceptual pass never equals one of the exact pass. |
| ClusteringFacts.SizeCloseIff | src/lib/imageHash.ts:116-118 | The size rule holds exactly when the anchor's size is positive and ten times the size difference is below it. |
| ClusteringFacts.MetadataPushes | src/lib/imageHash.ts:116-127 | The exact pass joins on either rule, and pushes twice exactly when both rules hold. |
| ClusteringFacts.FingerprintJoins | src/lib/imageHash.ts:169-187 | The perceptual pass joins exactly when both photos have non-empty hashes whose similarity is a number at least the threshold; it pushes at most once. |
| ClusteringFacts.FollowerJoinsEarlierAnchor | src/lib/imageHash.ts:104-128 | Every follower joined an earlier photo that is not itself a follower, and passes the join test against it. |
| ClusteringFacts.AnchorIsFirstMatch | src/lib/imageHash.ts:104-128 | No non-follower before a follower's anchor passes the join test with that follower. |
| ClusteringFacts.NothingLeftToGroup | src/lib/imageHash.ts:104-143 | No two photos left out of every group pass the join test: the clustering is maximal. |
| ClusteringFacts.FollowerMarked | src/lib/imageHash.ts:130-140 | A follower is flagged as a duplicate with its anchor's group id and keeps its id, name and size. |
| ClusteringFacts.OthersUnchanged | src/lib/imageHash.ts:130-140 | Photos outside every group, including every anchor, leave the pass exactly as they entered it. |
| ClusteringFacts.SameGroupIff | src/lib/imageHash.ts:130-139 | Two followers carry the same group id exactly when they joined the same anchor. |
| ClusteringFacts.FoundCounts | src/lib/imageHash.ts:116-137 | The returned list holds each follower once per push it received, and nothing else. |
| ClusteringFacts.FoundAreFollowers | src/lib/imageHash.ts:133-139 | Every returned entry is a follower in the collection. |
| ClusteringFacts.FoundOrdered | src/lib/imageHash.ts:104-143 | The returned list is ordered by anchor, then by position. |
| ClusteringFacts.MetadataFoundTwice | src/lib/imageHash.ts:116-127 | In the exact pass a photo is returned twice exactly when it meets both the size and the name rule against its anchor. |
| ClusteringFacts.FingerprintFoundOnce | src/lib/imageHash.ts:183-187 | The perceptual pass returns each follower exactly once. |
| ClusteringFacts.ScoreAgainstAnchor | src/lib/imageHash.ts:181-187 | A perceptual follower's recorded score is its similarity to its anchor, and it reaches the threshold. |
| ClusteringFacts.MetadataKeepsScore | src/lib/imageHash.ts:99-146 | The exact pass never changes a similarity score. |
| ClusteringFacts.NoHashUntouched | src/lib/imageHash.ts:169-179 | A photo without a usable hash is nobody's anchor, joins no group, is not returned and is left as it was. |
| ClusteringFacts.SmallInput | src/lib/imageHash.ts:99-146 | A collection of at most one photo yields no duplicates and no changes. |
| DuplicateSearch.MarkGroup | src/lib/imageHash.ts:130-140 | The `forEach` flags every follower with the group id and appends it to the result. |
| DuplicateSearch.CollectDuplicates | src/lib/imageHash.ts:111-128 | The inner loop of the exact pass computes the specified scan, NaN size ratios included. |
| DuplicateSearch.FindDuplicates | src/lib/imageHash.ts:99-146 | The in-place exact pass leaves the array, the result and the counter as the fold prescribes. |
| DuplicateSearch.VisitSimilar | src/lib/imageHash.ts:174-188 | One inner iteration of the perceptual pass advances the scan and scores the pushed photo. |
| DuplicateSearch.CollectSimilar | src/lib/imageHash.ts:174-188 | The inner loop of the perceptual pass computes the scan, scoring exactly the pushed photos. |
| DuplicateSearch.GroupSimilar | src/lib/imageHash.ts:163-202 | The comparison loop leaves the array, the result and the counter as the fold prescribes. |
| DuplicateSearch.FindSimilarPhotos | src/lib/imageHash.ts:148-205 | The perceptual pass is the fold over the table of successful fingerprints. |
| PhotoAnalysis.KeepFirst | src/hooks/usePhotoAnalysis.ts:54-56 | The filter keeps only references into the photo array. |
| PhotoAnalysis.AllDuplicates | src/hooks/usePhotoAnalysis.ts:52-58 | The union keeps only references into the photo array. |
| PhotoAnalysis.FindIndex | src/hooks/usePhotoAnalysis.ts:55 | `findIndex` returns the first position with the id, or -1 exactly when there is none. |
| PhotoAnalysis.KeepFirstSound | src/hooks/usePhotoAnalysis.ts:54-56 | Every kept entry is the first occurrence of its id. |
| PhotoAnalysis.KeepFirstOrdered | src/hooks/usePhotoAnalysis.ts:54-56 | Kept entries are in the order of their first occurrences. |
| PhotoAnalysis.KeepFirstComplete | src/hooks/usePhotoAnalysis.ts:54-56 | The first occurrence of every id is kept. |
| PhotoAnalysis.AllDuplicatesUnique | src/hooks/usePhotoAnalysis.ts:52-58 | No id appears twice in the union, even for a photo both passes returned. |
| PhotoAnalysis.AllDuplicatesIds | src/hooks/usePhotoAnalysis.ts:52-58 | The union has exactly the ids of the two pass results together. |
| PhotoAnalysis.AllDuplicatesOrder | src/hooks/usePhotoAnalysis.ts:52-58 | The union lists each id's first occurrence, exact results first, in order of first occurrence. |
| PhotoAnalysis.AppendToUnion | src/hooks/usePhotoAnalysis.ts:52-58 | Appending an entry with an id already seen leaves the union unchanged; a new id is added at the end. |
| PhotoAnalysis.SpaceSavings | src/hooks/usePhotoAnalysis.ts:76-80 | Definition only: the total size of the entries of the union; `NoResultsNoSavings` and `SavingsCountEachIdOnce` state its properties. |
| PhotoAnalysis.NoResultsNoSavings | src/hooks/usePhotoAnalysis.ts:76-80 | With no results the savings are 0. |
| PhotoAnalysis.SavingsCountEachIdOnce | src/hooks/usePhotoAnalysis.ts:76-80 | A photo reported again adds nothing to the savings; a photo with a new id adds its size once. |
| PhotoAnalysis.Bucket | src/hooks/usePhotoAnalysis.ts:64-71 | A bucket is no longer than the list it is taken from, and holds only photos of its group. |
| PhotoAnalysis.BucketPositions | src/hooks/usePhotoAnalysis.ts:64-71 | A bucket is the union at strictly increasing positions, so it keeps the union's order, and every position whose photo is in the group is among them. |
| PhotoAnalysis.BucketCounts | src/hooks/usePhotoAnalysis.ts:64-71 | A bucket holds each entry of its group as often as the union does, and nothing else. |
| PhotoAnalysis.DuplicateGroups | src/hooks/usePhotoAnalysis.ts:60-74 | There is one bucket per truthy group id that occurs, holding that group's entries in order. |
| PhotoAnalysis.AnalysisMilestones | src/hooks/usePhotoAnalysis.ts:18-39 | In the recorded updates of one analysis, progress goes 0, 25, 50, 100 and never decreases; the exact result is stored before the perceptual pass starts; analysing is switched on first and off last. |
| PhotoAnalysis.PhotoAnalysis.constructor | src/hooks/usePhotoAnalysis.ts:8-12 | The hook starts with empty results, progress 0, not analysing and not mounted. |
| PhotoAnalysis.PhotoAnalysis.Mount | src/hooks/usePhotoAnalysis.ts:14-16 | Mounting sets only the mounted flag. |
| PhotoAnalysis.PhotoAnalysis.ExactPhase | src/hooks/usePhotoAnalysis.ts:19-29 | Analysing is switched on and progress set to 0 and 25; the exact pass runs and its result is stored; progress is set to 50. Each update is recorded where it happens. |
| PhotoAnalysis.PhotoAnalysis.SimilarPhase | src/hooks/usePhotoAnalysis.ts:30-37 | The perceptual pass runs at 0.85 from the exact pass's counter and its result is stored; progress is set to 100 and analysing switched off. Each update is recorded where it happens. |
| PhotoAnalysis.PhotoAnalysis.AnalyzePhotos | src/hooks/usePhotoAnalysis.ts:18-39 | The exact pass, then the perceptual pass at 0.85 on the records the exact pass annotated; both results are stored. The updates are recorded at the statements that make them, and they come out in the order `AnalysisMilestones` is about. |
| PhotoAnalysis.PhotoAnalysis.Refresh | src/hooks/usePhotoAnalysis.ts:41-50 | Before mounting, or with no photos, both results and the progress are cleared and nothing else changes; otherwise the photos are analysed. |
| PhotoAnalysis.PhotoAnalysis.GetAllDuplicates | src/hooks/usePhotoAnalysis.ts:52-58 | The union of the hook's current results: it refers only to photos of the collection, lists no id twice, and its ids are exactly those of both results together; `AllDuplicatesIds`, `AllDuplicatesUnique` and `AllDuplicatesOrder` state the union's properties in full. |
| PhotoAnalysis.PhotoAnalysis.GetSpaceSavings | src/hooks/usePhotoAnalysis.ts:76-80 | The total size of the current union, 0 when neither pass reported anything; `NoResultsNoSavings` and `SavingsCountEachIdOnce` state that each id adds its size once. |
| PhotoAnalysis.PhotoAnalysis.GetDuplicateGroups | src/hooks/usePhotoAnalysis.ts:60-74 | The buckets of the current union, by group id. |
| HomePage.FindById | src/app/page.tsx:27 | `find` returns a photo with the id exactly when one exists, and it is the first such photo. |
| HomePage.RemoveId | src/app/page.tsx:31 | The filtered list is no longer than the old one, and no photo in it has the id. |
| HomePage.RemoveIdPositions | src/app/page.tsx:31 | The filtered list is the old list at strictly increasing positions, so the other photos keep their order, and every photo with another id is among them. |
| HomePage.RemoveIdEffect | src/app/page.tsx:31 | The filter keeps every photo with another id as often as before. |
| HomePage.RemoveIdLength | src/app/page.tsx:31 | The list shrinks by the number of photos with the id. |
| HomePage.RemoveUniqueId | src/app/page.tsx:26-33 | With unique ids, a delete removes one photo when the id is found and none otherwise. |
| HomePage.Megabytes | src/app/page.tsx:38 | Definition only: `Math.round` of the byte count over 1024 * 1024, on whole numbers; `MegabytesNearest` states that this is rounding to the nearest megabyte. |
| HomePage.MegabytesNearest | src/app/page.tsx:38 | The freed-space figure is the byte count rounded to the nearest whole megabyte. |
| HomePage.AllDuplicatesWithinTotal | src/app/page.tsx:37 | The duplicate count shown never exceeds the number of photos analysed. |
| HomePage.Home.constructor | src/app/page.tsx:14-17 | The page starts on the upload view with no photos and zero counters. |
| HomePage.Home.HandlePhotosUploaded | src/app/page.tsx:21-24 | The new list replaces the old one and the grid view opens; the counters stay. |
| HomePage.Home.HandlePhotoDeleted | src/app/page.tsx:26-33 | Freed bytes grow by the size of the first photo with the id, if any; all photos with the id go; the processed counter always grows by one. |
| HomePage.Home.CurrentStats | src/app/page.tsx:35-40 | The figures: the photo count; the processed count; the duplicate count, which is the length of the hook's `getAllDuplicates` and at most the size of the collection; and the freed megabytes, within half a megabyte of the exact value. |
| ObjectUrls.Register | src/lib/objectUrlRegistry.ts:3-5 | Afterwards exactly the old urls and the new one are tracked, and no revoke is issued. |
| ObjectUrls.Revoke | src/lib/objectUrlRegistry.ts:7-16 | In a browser the url is no longer tracked afterwards; the tracked set only shrinks; at most one revoke is issued, after the earlier ones. |
| ObjectUrls.RevokeAll | src/lib/objectUrlRegistry.ts:18-22 | The tracked set only shrinks, and at most one revoke is issued per listed url. |
| ObjectUrls.Clear | src/lib/objectUrlRegistry.ts:24-32 | Afterwards nothing is tracked, and the earlier revokes are kept. |
| ObjectUrls.RegisterIdempotent | src/lib/objectUrlRegistry.ts:3-5 | Registering a url twice is the same as registering it once. |
| ObjectUrls.RevokeEffect | src/lib/objectUrlRegistry.ts:7-16 | Revoking does nothing outside a browser or for an untracked url; otherwise it revokes the url once, stops tracking it and keeps every other url. |
| ObjectUrls.RevokeAllOutsideBrowser | src/lib/objectUrlRegistry.ts:18-22 | Outside a browser, revoking a list changes nothing. |
| ObjectUrls.RevokeAllInBrowser | src/lib/objectUrlRegistry.ts:18-22 | In a browser, exactly the listed urls stop being tracked; the revoke calls issued are appended, and each was of a tracked, listed url. |
| ObjectUrls.RegisterAccounted | src/lib/objectUrlRegistry.ts:3-5 | Registering preserves the accounting invariant: no repeats, and revokes plus tracking bounded by registrations. |
| ObjectUrls.RevokeAccounted | src/lib/objectUrlRegistry.ts:7-16 | Revoking one url preserves the accounting invariant. |
| ObjectUrls.RevokeAllAccounted | src/lib/objectUrlRegistry.ts:18-22 | Revoking a list preserves the accounting invariant. |
| ObjectUrls.ClearAccounted | src/lib/objectUrlRegistry.ts:24-32 | Clearing preserves the accounting invariant. |
| ObjectUrls.ReplayAccounted | src/lib/objectUrlRegistry.ts:1-32 | Every session from the empty registry satisfies the accounting invariant. |
| ObjectUrls.RevokedAtMostAsRegistered | src/lib/objectUrlRegistry.ts:1-32 | A url is revoked at most as often as it was registered. |
| ObjectUrls.NoRevokeOutsideBrowser | src/lib/objectUrlRegistry.ts:7-10 | Outside a browser no revoke call is ever issued. |
| ObjectUrls.ObjectUrlRegistry.constructor | src/lib/objectUrlRegistry.ts:1 | The registry starts empty. |
| ObjectUrls.ObjectUrlRegistry.RegisterObjectUrl | src/lib/objectUrlRegistry.ts:3-5 | The new state is the set insertion; the invariant is kept. |
| ObjectUrls.ObjectUrlRegistry.RevokeObjectUrl | src/lib/objectUrlRegistry.ts:7-16 | The new state is the specified revoke; the invariant is kept. |
| ObjectUrls.ObjectUrlRegistry.RevokeObjectUrls | src/lib/objectUrlRegistry.ts:18-22 | The loop performs the revokes one by one, in order. |
| ObjectUrls.ObjectUrlRegistry.ClearObjectUrls | src/lib/objectUrlRegistry.ts:24-32 | In a browser every tracked url is revoked, in insertion order, then the set is emptied; outside a browser it is only emptied. |
| PhotoGrid.Toggle | src/components/PhotoGrid.tsx:26-36 | A toggle flips the id's membership and no other id's. |
| PhotoGrid.ToggleFlips | src/components/PhotoGrid.tsx:26-36 | A toggle keeps the selection free of repeats. |
| PhotoGrid.ToggleTwice | src/components/PhotoGrid.tsx:26-36 | Toggling twice restores the selected set; when the id was not selected, the list itself comes back. |
| PhotoGrid.DuplicatePhotos | src/components/PhotoGrid.tsx:58 | Only flagged photos are in the first list. |
| PhotoGrid.UniquePhotos | src/components/PhotoGrid.tsx:59 | Only unflagged photos are in the second list. |
| PhotoGrid.DuplicatePositions | src/components/PhotoGrid.tsx:58 | The flagged list is the library at strictly increasing positions, in order, and no flagged photo is missed. |
| PhotoGrid.UniquePositions | src/components/PhotoGrid.tsx:59 | The unflagged list is the library at strictly increasing positions, in order, and no unflagged photo is missed. |
| PhotoGrid.Partition | src/components/PhotoGrid.tsx:58-59 | The flagged and unflagged lists together hold every photo exactly as often as the library. |
| PhotoGrid.GroupKey | src/components/PhotoGrid.tsx:62 | A photo's bucket key is never the empty string: a missing or empty group id becomes "ungrouped". |
| PhotoGrid.WithKey | src/components/PhotoGrid.tsx:61-68 | A bucket is no longer than the flagged list, and holds only photos with its key. |
| PhotoGrid.WithKeyPositions | src/components/PhotoGrid.tsx:61-68 | A bucket is the flagged list at strictly increasing positions, in order, and every photo with the key is among them. |
| PhotoGrid.WithKeyMembers | src/components/PhotoGrid.tsx:61-68 | Every flagged photo is in the bucket of its own key. |
| PhotoGrid.GroupedPhotos | src/components/PhotoGrid.tsx:61-68 | One bucket per group key that occurs, missing groups under "ungrouped", each holding its photos in order. |
| PhotoGrid.BucketsCoverAll | src/components/PhotoGrid.tsx:61-68 | The bucket sizes add up to the number of flagged photos. |
| PhotoGrid.Grid.constructor | src/components/PhotoGrid.tsx:16-19 | The grid starts with an empty selection and the comparison closed. |
| PhotoGrid.Grid.TogglePhotoSelection | src/components/PhotoGrid.tsx:26-36 | The selection becomes the toggle of the old one; nothing else changes. |
| PhotoGrid.Grid.HandleBatchDelete | src/components/PhotoGrid.tsx:38-43 | One delete report per selected id, in selection order, then an empty selection. |
| PhotoGrid.Grid.HandleCompareGroup | src/components/PhotoGrid.tsx:45-48 | The comparison opens on the given group; nothing else changes. |
| PhotoGrid.Grid.Buckets | src/components/PhotoGrid.tsx:58-68 | The buckets of the flagged photos of the current list. |
| SwipeReview.DragDecision | src/components/SwipeInterface.tsx:46-57 | A drag that fires goes right exactly when it ends right of the start. |
| SwipeReview.DragDecisionCases | src/components/SwipeInterface.tsx:46-57 | A drag fires exactly when it is beyond 100 px or faster than 500 px/s, and goes right exactly when it ends right of the start. |
| SwipeReview.LastN | src/components/SwipeInterface.tsx:36 | `slice(-n)` is the last n elements, or all of them. |
| SwipeReview.Swiped | src/components/SwipeInterface.tsx:28-44 | Reports are only appended, at most one per swipe; the index moves one step exactly when there is a current photo. |
| SwipeReview.Undone | src/components/SwipeInterface.tsx:59-68 | Undo never takes back a report, and only shortens the buffer from its end. |
| SwipeReview.Previous | src/components/SwipeInterface.tsx:70-72 | The index is never negative afterwards, and nothing but the index changes. |
| SwipeReview.Next | src/components/SwipeInterface.tsx:74-76 | The index never passes the last photo, and nothing but the index changes. |
| SwipeReview.Done | src/components/SwipeInterface.tsx:86 | Definition only: the done screen shows when the index is at or past the end of the list. |
| SwipeReview.StartOver | src/components/SwipeInterface.tsx:97 | Start Over returns to the first photo and keeps the buffer and the reports. |
| SwipeReview.SwipeEffect | src/components/SwipeInterface.tsx:28-44 | Without a current photo nothing happens; otherwise the index advances, and a left swipe reports the photo and buffers it as the newest of at most ten. |
| SwipeReview.UndoAfterLeftSwipe | src/components/SwipeInterface.tsx:59-68 | Undoing a left swipe made with room in the buffer restores the index and the buffer; the delete report stays. |
| SwipeReview.ApplySane | src/components/SwipeInterface.tsx:28-76 | Every handler keeps the buffer at most ten long and the index between -1 (empty list only) and the done state. |
| SwipeReview.ReplaySane | src/components/SwipeInterface.tsx:28-76 | Every session from the start stays within those bounds. |
| SwipeReview.ReportsOnlyGrow | src/components/SwipeInterface.tsx:28-44 | Reports are only appended, at most one per action. |
| SwipeReview.SwipeInterface.constructor | src/components/SwipeInterface.tsx:15-17 | The review starts at the first photo with an empty buffer. |
| SwipeReview.SwipeInterface.HandleSwipe | src/components/SwipeInterface.tsx:28-44 | The new state is the specified swipe, and the bounds are kept. |
| SwipeReview.SwipeInterface.HandleDragEnd | src/components/SwipeInterface.tsx:46-57 | A drag swipes in the decided direction, or does nothing. |
| SwipeReview.SwipeInterface.HandleUndo | src/components/SwipeInterface.tsx:59-68 | Undo drops the newest buffered photo and steps back, not below 0. |
| SwipeReview.SwipeInterface.GoToPrevious | src/components/SwipeInterface.tsx:70-72 | The index steps back, not below 0. |
| SwipeReview.SwipeInterface.GoToNext | src/components/SwipeInterface.tsx:74-76 | The index steps forward, not past the last photo. |
| SwipeReview.SwipeInterface.StartOverReview | src/components/SwipeInterface.tsx:97 | Start Over returns to the first photo. |
| SwipeReview.SwipeInterface.IsDone | src/components/SwipeInterface.tsx:86 | The done screen shows exactly when the index is at the end of the list. |
| ComparisonView.Next | src/components/PhotoComparison.tsx:21-25 | Next moves at most one step forward and never leaves the group. |
| ComparisonView.Previous | src/components/PhotoComparison.tsx:27-31 | Previous moves at most one step back and never below the first photo. |
| ComparisonView.Delete | src/components/PhotoComparison.tsx:33-40 | A delete appends exactly one report and never moves the index out of the group. |
| ComparisonView.Keep | src/components/PhotoComparison.tsx:123 | Keep selects the photo and changes nothing else. |
| ComparisonView.Cancel | src/components/PhotoComparison.tsx:233 | Cancel clears the selection and changes nothing else. |
| ComparisonView.Continue | src/components/PhotoComparison.tsx:239-242 | Continue clears the selection and keeps the index in the group. |
| ComparisonView.Close | src/components/PhotoComparison.tsx:61-62 | The close button closes the overlay and changes nothing else. |
| ComparisonView.NavigationEffect | src/components/PhotoComparison.tsx:21-31 | Next moves only from before the last photo, Previous only from after the first; neither changes anything else. |
| ComparisonView.DeleteEffect | src/components/PhotoComparison.tsx:33-40 | A delete always reports the photo; with one photo it closes the overlay; at the last position it steps back; otherwise the index stays. |
| ComparisonView.KeepDialog | src/components/PhotoComparison.tsx:233-242 | Cancel ends the keep dialog without moving; Continue ends it and moves like Next. |
| ComparisonView.IndexStaysInGroup | src/components/PhotoComparison.tsx:21-40 | Opened on a non-empty group, the index never leaves the group. |
| ComparisonView.DeletesReported | src/components/PhotoComparison.tsx:33-40 | Each delete of a session is reported once, in order. |
| ComparisonView.PhotoComparison.constructor | src/components/PhotoComparison.tsx:15-16 | The overlay opens at the first photo with nothing selected. |
| ComparisonView.PhotoComparison.HandleNext | src/components/PhotoComparison.tsx:21-25 | The new state is the specified Next. |
| ComparisonView.PhotoComparison.HandlePrevious | src/components/PhotoComparison.tsx:27-31 | The new state is the specified Previous. |
| ComparisonView.PhotoComparison.HandleDelete | src/components/PhotoComparison.tsx:33-40 | The new state is the specified delete. |
| ComparisonView.PhotoComparison.KeepPhoto | src/components/PhotoComparison.tsx:123 | Keep selects the photo. |
| ComparisonView.PhotoComparison.CancelKeep | src/components/PhotoComparison.tsx:233 | Cancel clears the selection. |
| ComparisonView.PhotoComparison.ContinueKeep | src/components/PhotoComparison.tsx:239-242 | Continue clears the selection and then moves like Next. |
| ComparisonView.PhotoComparison.CloseOverlay | src/components/PhotoComparison.tsx:61-62 | The new state is the specified Close. |

## Left out

- **Image decoding and canvas drawing** (`drawImage`, `getImageData`, the `Image` element and its events). The decoded 32 x 32 RGBA raster is a parameter, and `None` stands for an image that failed to load.
- AverageHash.Luma: computed on exact rationals, as the rounding of (299R + 587G + 114B) / 1000, not in binary floating point. The lemmas rely only on its range 0..255.
- **Floating point.** JavaScript numbers are modelled as exact reals and unbounded naturals: the size ratio, the similarity and the mean are computed without rounding, and sizes and sums have no 2^53 limit.
- **`generateFileHash`.** SHA-256 through the Web Crypto API; nothing in the core calls it.
- **Promises, `await` and `console.error` logging.** A failed hash is modelled as a skipped entry. Both passes are total, so the `catch` branch of `analyzePhotos` is never taken, and the model does not include it.
- **`Date.now()` and `Math.random()` in group ids.** They are replaced by an injected counter (see above). The model therefore does not say that ids are different across separate runs.
- **React itself:** rendering, re-render timing, `useCallback` dependencies, the 300 ms `setTimeout` before the swipe index moves, and the card animation. Each handler is one atomic transition, and `swipeDirection` (animation only) is not modelled.
- **The grid's `viewMode` toggle.** It changes only what is rendered.
- **Interaction between components.** The parent page removes the deleted photo from the list. The swipe and comparison components then see a shorter list under the same index. Each component is modelled on the list it was given.
- **`formatFileSize` and the statistics panel.** Display formatting only.
- **Photo ingestion** (file picker, drag-and-drop, device folders) and the preview urls it registers. The registry's operations are modelled; their callers are not.
- **The unique-ids assumption.** The clustering lemmas that characterise a finished pass assume unique photo ids, as ingestion promises.
