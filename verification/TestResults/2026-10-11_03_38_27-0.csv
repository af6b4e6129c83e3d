TestResult.DisplayName,TestResult.Outcome,TestResult.Duration,TestResult.ResourceCount,RandomSeed
History.FrontIsReversed (correctness),Passed,00:00:01.1901676,3176742,0
History.RefreshAll (well-formedness),Passed,00:00:00.3653720,718559,0
History.RefreshSplits (correctness),Passed,00:00:00.1993033,365956,0
History.RemoveIdsEvery (correctness),Passed,00:00:00.1349054,32610,0
History.SteadyTargetersRenewTimestamps (correctness),Passed,00:00:00.1333773,433510,0
Objects.ObjectId (well-formedness),Passed,00:00:00.1160665,3430,0
Objects.ObjectIdsDistinct (well-formedness),Passed,00:00:00.1108958,13374,0
History.DistinctCard (correctness),Passed,00:00:00.0710009,168100,0
Objects.EntryIdsDistinct (well-formedness),Passed,00:00:00.0619627,13550,0
History.TargeterKeptOnce (correctness),Passed,00:00:00.0611543,101703,0
History.FrontHandles (correctness),Passed,00:00:00.0537960,109795,0
History.RemoveIdsConcat (correctness),Passed,00:00:00.0523211,104793,0
History.RemoveIdsTwice (correctness),Passed,00:00:00.0489693,70286,0
History.SubsequenceDistinct (correctness),Passed,00:00:00.0485216,87611,0
History.FrontGrows (correctness),Passed,00:00:00.0456532,74341,0
History.ThreeTargetersTwoSlots (correctness),Passed,00:00:00.0402720,91285,0
History.RemoveIdsNone (correctness),Passed,00:00:00.0402477,45848,0
History.DistinctUncons (correctness),Passed,00:00:00.0394566,57066,0
History.RemoveIds (well-formedness),Passed,00:00:00.0386356,55310,0
History.OthersKeepOrder (correctness),Passed,00:00:00.0348727,59889,0
History.OccurrencesDistinct (correctness),Passed,00:00:00.0348700,63877,0
History.DistinctUnsnoc (correctness),Passed,00:00:00.0337387,63160,0
History.RefreshKeepsDistinct (correctness),Passed,00:00:00.0336131,66636,0
History.FrontIsReversed (well-formedness),Passed,00:00:00.0318165,44290,0
History.OthersKeepOrder (well-formedness),Passed,00:00:00.0317785,47716,0
History.OccurrencesConcat (correctness),Passed,00:00:00.0315222,56076,0
Objects.Subsequence (well-formedness),Passed,00:00:00.0273344,15073,0
History.FrontGrows (well-formedness),Passed,00:00:00.0259970,38527,0
History.SubsequenceElements (correctness),Passed,00:00:00.0255425,36090,0
History.ThreeTargetersTwoSlots (well-formedness),Passed,00:00:00.0233749,46202,0
History.ConsEntryDistinct (correctness),Passed,00:00:00.0218443,39455,0
History.OccurrencesAbsent (correctness),Passed,00:00:00.0202379,32040,0
History.PrefixElements (correctness),Passed,00:00:00.0183297,24707,0
History.DistinctUncons (well-formedness),Passed,00:00:00.0163220,22554,0
History.DistinctUnsnoc (well-formedness),Passed,00:00:00.0152336,20829,0
History.TrimConcat (correctness),Passed,00:00:00.0150210,22788,0
History.Occurrences (well-formedness),Passed,00:00:00.0137796,19436,0
History.TrimConcat (well-formedness),Passed,00:00:00.0115390,13986,0
History.Trim (well-formedness),Passed,00:00:00.0096766,11626,0
