TestResult.DisplayName,TestResult.Outcome,TestResult.Duration,TestResult.ResourceCount,RandomSeed
QuestionForm.ParseTags (well-formedness),Failed,00:00:25.9274510,2066039,3
QuestionForm.ParseTagsKeepsText (well-formedness),Passed,00:00:00.2973096,64494,3
QuestionForm.ParseTagsEmpty (correctness),Passed,00:00:00.1047536,107869,3
QuestionForm.ParseTagsKeepsText (correctness),Passed,00:00:00.0865839,88562,3
QuestionForm.ParseTagsDropsPadding (correctness),Passed,00:00:00.0789588,89203,3
QuestionForm.ParseTagsCount (correctness),Passed,00:00:00.0765344,69364,3
QuestionForm.ParseTagsJoin (correctness),Passed,00:00:00.0765120,83065,3
QuestionForm.ParseTagsJoin (well-formedness),Passed,00:00:00.0688836,65141,3
