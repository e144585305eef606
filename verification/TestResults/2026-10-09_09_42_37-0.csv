TestResult.DisplayName,TestResult.Outcome,TestResult.Duration,TestResult.ResourceCount,RandomSeed
Validation.CollectIssuesOrdered (correctness),Passed,00:00:00.2867328,866598,0
Invalidation.LikeInvalidates (correctness),Passed,00:00:00.2612194,606689,0
SearchResults.GridIsNeverEmpty (well-formedness),Passed,00:00:00.2441510,18275,0
SearchResults.Render (well-formedness),Passed,00:00:00.2441154,23074,0
PostStats.LikeClickFlipsIcon (correctness),Passed,00:00:00.2088995,176826,0
PostStats.ToggleTwiceMovesToEnd (correctness),Passed,00:00:00.2042083,446627,0
Validation.CollectIssuesComplete (correctness),Passed,00:00:00.1651407,107670,0
Invalidation.SaveAndUnsaveAgree (correctness),Passed,00:00:00.1569357,239782,0
Invalidation.FeedAndSearchNeverInvalidated (correctness),Passed,00:00:00.1283394,541050,0
Invalidation.LikeInvalidatesFourKeys (correctness),Passed,00:00:00.1280202,305401,0
Invalidation.InvalidatedKeys (well-formedness),Passed,00:00:00.1270075,121885,0
PostStats.FirstSaveOf (well-formedness),Passed,00:00:00.1223374,96244,0
Explore.RawValueDecides (well-formedness),Passed,00:00:00.1196566,60474,0
Explore.FetchedDocumentsAreShown (correctness),Passed,00:00:00.1193757,93149,0
Validation.SchemaIssuesShaped (correctness),Passed,00:00:00.1146960,283688,0
Validation.ShortFieldsRejected (correctness),Passed,00:00:00.1124583,164163,0
Validation.FieldsOf (well-formedness),Passed,00:00:00.0981962,11681,0
Validation.ShortFieldsRejected (well-formedness),Passed,00:00:00.0928308,101031,0
Validation.ParseSignup (well-formedness),Passed,00:00:00.0791090,173989,0
PostStats.RemoveAllUnique (correctness),Passed,00:00:00.0789101,155012,0
Explore.Render (well-formedness),Passed,00:00:00.0732284,98416,0
Validation.IssueReported (correctness),Passed,00:00:00.0726993,122962,0
Validation.LongEnoughAccepted (correctness),Passed,00:00:00.0694065,106724,0
Validation.SchemaIssuesExact (well-formedness),Passed,00:00:00.0668874,79139,0
PostStats.HandleSavePost (well-formedness),Passed,00:00:00.0641725,77929,0
PostStats.RemoveAll (well-formedness),Passed,00:00:00.0641280,95377,0
Invalidation.LikeSparesOtherPosts (correctness),Passed,00:00:00.0626728,161059,0
Validation.CollectIssuesSound (correctness),Passed,00:00:00.0623398,121847,0
PostStats.SaveClickFlipsSyncedFlag (correctness),Passed,00:00:00.0601488,55793,0
Validation.IssueReported (well-formedness),Passed,00:00:00.0600935,94233,0
Invalidation.CachedQueriesAfterSuccess (correctness),Passed,00:00:00.0560129,135634,0
Validation.SchemaIssuesExact (correctness),Passed,00:00:00.0545338,113257,0
PostStats.DuplicateSavesDeleteFirst (correctness),Passed,00:00:00.0544547,68225,0
Invalidation.CreatePostInvalidatesRecentPosts (correctness),Passed,00:00:00.0537658,93646,0
Validation.AstralCharacterCountsTwice (correctness),Passed,00:00:00.0536042,44385,0
Validation.CollectIssues (well-formedness),Passed,00:00:00.0535995,82318,0
PostStats.SaveDecisionIgnoresFlag (correctness),Passed,00:00:00.0517982,54238,0
Explore.RawValueDecides (correctness),Passed,00:00:00.0505460,75418,0
PostStats.SyncSaved (well-formedness),Passed,00:00:00.0494675,51931,0
Validation.SchemaIssuesShaped (well-formedness),Passed,00:00:00.0473787,88481,0
Explore.NoPagesIsEndOfFeed (correctness),Passed,00:00:00.0467792,63156,0
QueryKeys.NamesDistinct (correctness),Passed,00:00:00.0458712,78094,0
Validation.AstralCharacterCountsTwice (well-formedness),Passed,00:00:00.0443339,37412,0
PostStats.ToggleTwiceRestores (correctness),Passed,00:00:00.0441252,83737,0
PostStats.HandleLikePost (well-formedness),Passed,00:00:00.0431358,44647,0
Explore.FlattenMembership (correctness),Passed,00:00:00.0429162,77150,0
Invalidation.FailureInvalidatesNothing (correctness),Passed,00:00:00.0422342,50418,0
PostStats.SubsequenceMultiset (correctness),Passed,00:00:00.0410062,70318,0
Validation.CollectIssuesComplete (well-formedness),Passed,00:00:00.0403535,79924,0
Explore.SearchSuspendsPagination (well-formedness),Passed,00:00:00.0389171,56397,0
Explore.FetchedDocumentsAreShown (well-formedness),Passed,00:00:00.0383762,64041,0
PostStats.Init (well-formedness),Passed,00:00:00.0377706,45117,0
Invalidation.LikeInvalidates (well-formedness),Passed,00:00:00.0368999,50830,0
Explore.SearchSuspendsPagination (correctness),Passed,00:00:00.0368580,60242,0
Explore.RequestsNextPage (well-formedness),Passed,00:00:00.0358123,17910,0
Validation.CollectIssuesSound (well-formedness),Passed,00:00:00.0341861,81531,0
Invalidation.LikeWithoutIdHitsBareByIdKey (correctness),Passed,00:00:00.0331549,60780,0
Explore.Grids (well-formedness),Passed,00:00:00.0328231,37924,0
PostStats.SavedPostRecord (well-formedness),Passed,00:00:00.0328179,67289,0
Invalidation.CreatePostInvalidatesRecentPosts (well-formedness),Passed,00:00:00.0312330,51183,0
Invalidation.AuthMutationsInvalidateNothing (correctness),Passed,00:00:00.0299025,53288,0
Invalidation.FeedAndSearchNeverInvalidated (well-formedness),Passed,00:00:00.0297553,48763,0
PostStats.SubsequenceOfExtension (correctness),Passed,00:00:00.0279951,41286,0
PostStats.Render (well-formedness),Passed,00:00:00.0274694,20395,0
PostStats.ToggleLike (well-formedness),Passed,00:00:00.0269395,37889,0
Validation.IssuesOrdered (well-formedness),Passed,00:00:00.0266741,17537,0
Explore.FlattenMembership (well-formedness),Passed,00:00:00.0251475,16792,0
Validation.Utf16Length (well-formedness),Passed,00:00:00.0233493,31823,0
Explore.AllEmpty (well-formedness),Passed,00:00:00.0228360,29523,0
Explore.EmptyPage (well-formedness),Passed,00:00:00.0205479,10522,0
QueryKeys.Matches (well-formedness),Passed,00:00:00.0201605,36676,0
PostStats.ToggleTwiceMovesToEnd (well-formedness),Passed,00:00:00.0197479,24275,0
SearchResults.GridIsNeverEmpty (correctness),Passed,00:00:00.0180093,20590,0
PostStats.IsSubsequence (well-formedness),Passed,00:00:00.0166988,15251,0
QueryKeys.UndefinedMatchesMissingPart (correctness),Passed,00:00:00.0160627,28881,0
Validation.FieldListed (correctness),Passed,00:00:00.0158692,20734,0
Validation.Rank (well-formedness),Passed,00:00:00.0124100,7787,0
QueryKeys.PartAt (well-formedness),Passed,00:00:00.0122283,6458,0
Invalidation.ReturnedIdPart (well-formedness),Passed,00:00:00.0120142,14868,0
Explore.SameDepsNoRequest (correctness),Passed,00:00:00.0114460,16488,0
Validation.NameMinLength (well-formedness),Passed,00:00:00.0112773,3664,0
Explore.Flatten (well-formedness),Passed,00:00:00.0107800,12305,0
Validation.Ordered (well-formedness),Passed,00:00:00.0106402,13582,0
Validation.UsernameMinLength (well-formedness),Passed,00:00:00.0104808,3664,0
Validation.InBmp (well-formedness),Passed,00:00:00.0089726,8416,0
Validation.PasswordMinLength (well-formedness),Passed,00:00:00.0053733,3664,0
