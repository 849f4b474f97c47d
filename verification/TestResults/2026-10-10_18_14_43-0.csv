TestResult.DisplayName,TestResult.Outcome,TestResult.Duration,TestResult.ResourceCount,RandomSeed
QuestionForm.ParseTags (well-formedness),Failed,00:00:16.9484768,2066047,2
QuestionForm.ParseTagsKeepsText (well-formedness),Passed,00:00:00.3085828,64474,2
QuestionForm.ParseTagsDropsPadding (correctness),Passed,00:00:00.0898751,89619,2
QuestionForm.ParseTagsEmpty (correctness),Passed,00:00:00.0898198,107009,2
QuestionForm.ParseTagsKeepsText (correctness),Passed,00:00:00.0844250,88688,2
QuestionForm.ParseTagsCount (correctness),Passed,00:00:00.0797024,69379,2
QuestionForm.ParseTagsJoin (correctness),Passed,00:00:00.0780336,83093,2
QuestionForm.ParseTagsJoin (well-formedness),Passed,00:00:00.0744142,65152,2
