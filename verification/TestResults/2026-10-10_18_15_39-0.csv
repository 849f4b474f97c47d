TestResult.DisplayName,TestResult.Outcome,TestResult.Duration,TestResult.ResourceCount,RandomSeed
QuestionForm.ParseTags (well-formedness),Passed,00:00:00.3805593,233887,5
QuestionForm.ParseTagsKeepsText (well-formedness),Passed,00:00:00.2737630,64474,5
QuestionForm.ParseTagsEmpty (correctness),Passed,00:00:00.0947427,107237,5
QuestionForm.ParseTagsJoin (correctness),Passed,00:00:00.0870384,82456,5
QuestionForm.ParseTagsCount (correctness),Passed,00:00:00.0812307,69357,5
QuestionForm.ParseTagsJoin (well-formedness),Passed,00:00:00.0763719,65146,5
QuestionForm.ParseTagsKeepsText (correctness),Passed,00:00:00.0649428,88644,5
QuestionForm.ParseTagsDropsPadding (correctness),Passed,00:00:00.0647533,86937,5
