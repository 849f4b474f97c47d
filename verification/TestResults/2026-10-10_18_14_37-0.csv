TestResult.DisplayName,TestResult.Outcome,TestResult.Duration,TestResult.ResourceCount,RandomSeed
QuestionForm.ParseTags (well-formedness),Passed,00:00:00.4786477,228489,1
QuestionForm.ParseTagsKeepsText (well-formedness),Passed,00:00:00.3539257,64479,1
QuestionForm.ParseTagsCount (correctness),Passed,00:00:00.1801269,69373,1
QuestionForm.ParseTagsJoin (well-formedness),Passed,00:00:00.1757456,65174,1
QuestionForm.ParseTagsJoin (correctness),Passed,00:00:00.1336725,83016,1
QuestionForm.ParseTagsDropsPadding (correctness),Passed,00:00:00.1189297,86549,1
QuestionForm.ParseTagsKeepsText (correctness),Passed,00:00:00.1159058,88568,1
QuestionForm.ParseTagsEmpty (correctness),Passed,00:00:00.0766173,107393,1
