TestResult.DisplayName,TestResult.Outcome,TestResult.Duration,TestResult.ResourceCount,RandomSeed
QuestionForm.ParseTags (well-formedness),Passed,00:00:00.3835643,229223,4
QuestionForm.ParseTagsKeepsText (well-formedness),Passed,00:00:00.2940317,64495,4
QuestionForm.ParseTagsKeepsText (correctness),Passed,00:00:00.0993656,88602,4
QuestionForm.ParseTagsJoin (correctness),Passed,00:00:00.0979699,82497,4
QuestionForm.ParseTagsJoin (well-formedness),Passed,00:00:00.0904091,65139,4
QuestionForm.ParseTagsDropsPadding (correctness),Passed,00:00:00.0863739,86942,4
QuestionForm.ParseTagsCount (correctness),Passed,00:00:00.0798813,69409,4
QuestionForm.ParseTagsEmpty (correctness),Passed,00:00:00.0764453,107656,4
