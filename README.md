# Java teaching exercises, modelled and verified in Dafny

This project models the logic of a collection of small Java exercises and proves what each one promises.

**Interest calculator.** Three deposit accounts each do the same three things:
- validate their inputs in the constructor, throwing `InvalidInputException` on the first guard that fails;
- choose an interest rate from a fixed table;
- return `amount * interestRate / 100`.

The accounts are the savings (`SBAccount`), fixed-deposit (`FDAccount`) and recurring-deposit (`RDAccount`) accounts. There are two versions of `RDAccount`: the current one only accepts tenures of 6, 9, 12, 15, 18 or 21 months, and the earlier one accepts any non-negative tenure.

**Task manager.** A `TaskService` holds an ordered list of `Task`s and a set of completed ids. It offers:
- `addTask` and `markCompleted`, which change that state;
- stream pipelines that filter, map, look up and join the tasks.

`Task` is an immutable record whose `toString` is its three fields separated by spaces.

**Small exercises.**
- A bank account with guarded deposits and withdrawals.
- A student grade table.
- The second-largest scan of an `int` array.
- The maximum-row-sum scan of an `int` matrix.
- The top three students by marks.
- The unique/duplicate email split through two insertion-ordered sets.
- Word count, reversal and first-occurrence replacement on a sentence.

## How the model is built
- **Java types.** `double` becomes `real`, so equalities are exact. `int` becomes the `JavaInt.int32` newtype. Where a Java `int` sum can overflow (matrix row sums), the wrap-around is written out with `Wrap32`.
- **The `Account` base class.** It is not part of this model. It declares `amount` and `interestRate`. The value `interestRate` holds before `calculateInterest` runs is taken as a constructor parameter `priorRate`. That is the value an account returns through when no branch of its rate table assigns a rate (`AccountBase.RateAfter`).
- **Throwing constructors.** Each is modelled in three parts:
  - a pure `Validate` function with the guards in source order;
  - a Dafny constructor that requires them to pass;
  - a `static method Create` that returns either the exception or a fresh account.
- **Two details of the interest calculator's code.**
  - In the current `RDAccount`, negative months have their own guard and message, checked before the month-set guard.
  - In `SBAccount`, an account type other than "Normal" or "NRI" leaves `interestRate` at its prior value.
- **Mutating code stays imperative.** `calculateInterest` writes `interestRate` (`modifies this`interestRate`). `BankAccount`, `TaskService` and `StringBuffer` are classes whose methods update their fields. The scans in `SecondLargest`, `MaximumSumMatrix` and `Task2UniqueEmailValidator` are loops proved against specification functions.
- **Pure code stays pure.** Stream pipelines (filter, map, sort, limit) are recursive functions over sequences.
- **`Stream.sorted`** is stable, so it is modelled as a stable insertion sort by marks, highest first.
- **`LinkedHashSet`** is a sequence without repeats, and `add` appends an element that is absent. The loop branches on `!unique.add(email)`; the model tests `email !in unique` before appending, which takes the same branch.

## Model

Source paths are relative to the repository root.

| member | source | states |
|---|---|---|
| JavaInt.Wrap32 | Day-4/MaximumSumMatrix.java:21 | The Java `int` result of an exact value: congruent to it modulo 2^32, and equal to it when it fits in 32 bits. |
| AccountBase.Interest | Week-2/Day-10_11/InterestCalculator/src/com/interest/bean/FDAccount.java:64 | `amount * rate / 100`: non-negative for non-negative inputs, zero for a zero amount, and dividing by the rate and multiplying by 100 gives back the amount. |
| AccountBase.RateAfter | Week-2/Day-10_11/InterestCalculator/src/com/interest/bean/SBAccount.java:13-19 | The rate after a rate chain runs: the chosen rate if a branch assigned one, otherwise the rate the field already held. |
| AccountBase.RateAfterIdempotent | Week-2/Day-10_11/InterestCalculator/src/com/interest/bean/SBAccount.java:13-20 | Running the same rate chain twice leaves the rate where the first run put it. |
| FixedDeposit.Validate | Week-2/Day-10_11/InterestCalculator/src/com/interest/bean/FDAccount.java:9-22 | The guards pass exactly when amount, days and age are all non-negative (zero accepted). |
| FixedDeposit.ValidateFirstFailureWins | Week-2/Day-10_11/InterestCalculator/src/com/interest/bean/FDAccount.java:9-22 | When they fail, the first failing guard's message is reported: amount, then days, then age. |
| FixedDeposit.FDRate | Week-2/Day-10_11/InterestCalculator/src/com/interest/bean/FDAccount.java:25-62 | A rate is assigned exactly when 7 <= days <= 365, and every assigned rate lies between 4.5 and 10. |
| FixedDeposit.BandsDisjoint | Week-2/Day-10_11/InterestCalculator/src/com/interest/bean/FDAccount.java:27-61 | No day count falls in two of the six day bands. |
| FixedDeposit.BandsCover | Week-2/Day-10_11/InterestCalculator/src/com/interest/bean/FDAccount.java:27-61 | Some band holds the day count exactly when it is between 7 and 365. |
| FixedDeposit.FDRateMatchesTable | Week-2/Day-10_11/InterestCalculator/src/com/interest/bean/FDAccount.java:26-62 | Inside a band, the rate is that band's table entry: regular or senior below 10,000,000, one age-independent rate at or above it. |
| FixedDeposit.BandEdges | Week-2/Day-10_11/InterestCalculator/src/com/interest/bean/FDAccount.java:27-61 | Each edge day (14/15, 29/30, 45/46, 60/61, 184/185, 365/366, 6) falls in the band the closed bounds give it, and in no other. |
| FixedDeposit.SeniorPremium | Week-2/Day-10_11/InterestCalculator/src/com/interest/bean/FDAccount.java:26-43 | Below the threshold, a holder aged 60 or more gets exactly 0.5 more than a younger holder, in every band. |
| FixedDeposit.HighValueIgnoresAge | Week-2/Day-10_11/InterestCalculator/src/com/interest/bean/FDAccount.java:44-62 | At or above 10,000,000 the rate does not depend on age. |
| FixedDeposit.FDAccount.constructor | Week-2/Day-10_11/InterestCalculator/src/com/interest/bean/FDAccount.java:9-22 | A validated account holds the given amount, days and age, and the base class's prior rate. |
| FixedDeposit.FDAccount.Create | Week-2/Day-10_11/InterestCalculator/src/com/interest/bean/FDAccount.java:9-22 | Invalid input yields the first guard's exception. Valid input yields a fresh, valid account with the given fields. |
| FixedDeposit.FDAccount.CalculateInterest | Week-2/Day-10_11/InterestCalculator/src/com/interest/bean/FDAccount.java:25-65 | The rate field becomes the table rate when the days are in a band and otherwise keeps its prior value. The result is `Interest(amount, rate)`, non-negative for a valid account. |
| Savings.Validate | Week-2/Day-10_11/InterestCalculator/src/com/interest/bean/SBAccount.java:5-10 | The guard passes exactly for the non-negative amounts, zero included. |
| Savings.ValidateRejectsOnlyNegative | Week-2/Day-10_11/InterestCalculator/src/com/interest/bean/SBAccount.java:5-10 | A negative amount is rejected with the amount message. |
| Savings.SBRate | Week-2/Day-10_11/InterestCalculator/src/com/interest/bean/SBAccount.java:14-18 | A rate is assigned exactly when the type equals "Normal" or "NRI" ignoring case: "Normal" gives 4 and "NRI" gives 6. |
| Savings.SBRateIgnoresCase | Week-2/Day-10_11/InterestCalculator/src/com/interest/bean/SBAccount.java:14-16 | Two account types that differ only in letter case get the same rate. |
| Savings.SBRateExamples | Week-2/Day-10_11/InterestCalculator/src/com/interest/bean/SBAccount.java:14-18 | "Normal", "normal" and "NORMAL" give 4; "NRI" and "nri" give 6; "Current" and "" assign nothing. |
| Savings.SBAccount.constructor | Week-2/Day-10_11/InterestCalculator/src/com/interest/bean/SBAccount.java:5-10 | A validated account holds the given amount and type, and the prior rate. |
| Savings.SBAccount.Create | Week-2/Day-10_11/InterestCalculator/src/com/interest/bean/SBAccount.java:5-10 | A negative amount yields the amount exception; otherwise a fresh, valid account with the given fields. |
| Savings.SBAccount.CalculateInterest | Week-2/Day-10_11/InterestCalculator/src/com/interest/bean/SBAccount.java:12-20 | The rate becomes 4 or 6 for Normal or NRI and otherwise keeps its prior value. A second call finds the rate already at its fixed point. The result is `Interest(amount, rate)`, non-negative for a valid account. |
| RecurringDeposit.Validate | Week-2/Day-10_11/InterestCalculator/src/com/interest/bean/RDAccount.java:9-25 | The guards pass exactly for a non-negative amount, a tenure in {6, 9, 12, 15, 18, 21} and a non-negative age. |
| RecurringDeposit.ValidateOrder | Week-2/Day-10_11/InterestCalculator/src/com/interest/bean/RDAccount.java:9-25 | The guards fire in source order: negative amount, negative months (the non-negative message), months outside the set, negative age. |
| RecurringDeposit.RDRate | Week-2/Day-10_11/InterestCalculator/src/com/interest/bean/RDAccount.java:29-50 | The switch yields 0 exactly for tenures outside the set. For tenures in the set the rate lies between 7.5 and 9.25. |
| RecurringDeposit.RDRateSchedule | Week-2/Day-10_11/InterestCalculator/src/com/interest/bean/RDAccount.java:30-47 | The regular rate rises by exactly 0.25 per three-month step from 7.5, and the senior rate is 0.5 above it. |
| RecurringDeposit.DefaultUnreachable | Week-2/Day-10_11/InterestCalculator/src/com/interest/bean/RDAccount.java:16-17 | For any input the constructor accepts, the switch never reaches its `default` branch. |
| RecurringDeposit.RDAccount.constructor | Week-2/Day-10_11/InterestCalculator/src/com/interest/bean/RDAccount.java:9-25 | A validated account holds the given monthly amount, months and age, and the prior rate. |
| RecurringDeposit.RDAccount.Create | Week-2/Day-10_11/InterestCalculator/src/com/interest/bean/RDAccount.java:9-25 | Invalid input yields the first guard's exception. Valid input yields a fresh, valid account with the given fields. |
| RecurringDeposit.RDAccount.CalculateInterest | Week-2/Day-10_11/InterestCalculator/src/com/interest/bean/RDAccount.java:27-53 | The switch always writes the rate. For a valid account the rate is between 7.5 and 9.25 and the interest is non-negative. The result is `Interest(amount, rate)`. |
| RecurringDepositLegacy.Validate | Week-2/Day-9_10/InterestCalculator/src/com/interest/bean/RDAccount.java:9-22 | The guards pass exactly when amount, months and age are non-negative, for any tenure. |
| RecurringDepositLegacy.ValidateOrder | Week-2/Day-9_10/InterestCalculator/src/com/interest/bean/RDAccount.java:9-22 | The messages fire in order: amount, months, age. |
| RecurringDepositLegacy.RDRate | Week-2/Day-9_10/InterestCalculator/src/com/interest/bean/RDAccount.java:26-42 | The if-chain assigns a rate exactly for 6, 9, 12, 15, 18 and 21 months, between 7.5 and 9.25. |
| RecurringDepositLegacy.RDAccount.constructor | Week-2/Day-9_10/InterestCalculator/src/com/interest/bean/RDAccount.java:9-22 | A validated account holds the given fields and the prior rate. |
| RecurringDepositLegacy.RDAccount.Create | Week-2/Day-9_10/InterestCalculator/src/com/interest/bean/RDAccount.java:9-22 | Invalid input yields the first guard's exception. Valid input yields a fresh, valid account with the given fields. |
| RecurringDepositLegacy.RDAccount.CalculateInterest | Week-2/Day-9_10/InterestCalculator/src/com/interest/bean/RDAccount.java:24-45 | The rate becomes the table rate for a listed tenure and otherwise keeps its prior value. The result is `Interest(amount, rate)`, non-negative for a valid account. |
| RecurringDepositVersions.CurrentAcceptsSubset | Week-2/Day-10_11/InterestCalculator/src/com/interest/bean/RDAccount.java:9-20 | The current constructor accepts an input exactly when the earlier one does and the tenure is in the set. |
| RecurringDepositVersions.RatesAgreeOnValidMonths | Week-2/Day-9_10/InterestCalculator/src/com/interest/bean/RDAccount.java:26-44 | On the six listed tenures both versions set the same rate and compute the same interest, whatever the prior rate. |
| RecurringDepositVersions.RatesDifferOffTable | Week-2/Day-10_11/InterestCalculator/src/com/interest/bean/RDAccount.java:48-49 | Off the table the current version sets 0 while the earlier one keeps the prior rate. |
| InterestExamples.SavingsNormal | Week-2/Day-9_10/InterestCalculator/src/com/interest/test/InterestCalculatorTest.java:24-51 | 5000 in a "Normal" or "normal" account earns 200. |
| InterestExamples.SavingsNri | Week-2/Day-9_10/InterestCalculator/src/com/interest/test/InterestCalculatorTest.java:44-51 | 10000 in an NRI account earns 600. |
| InterestExamples.SavingsZeroAmount | Week-2/Day-9_10/InterestCalculator/src/com/interest/test/InterestCalculatorTest.java:62-68 | A zero balance earns 0, whatever the account type and prior rate. |
| InterestExamples.SavingsNegativeAmount | Week-2/Day-9_10/InterestCalculator/src/com/interest/test/InterestCalculatorTest.java:54-59 | A negative savings amount is rejected with the amount message. |
| InterestExamples.FixedDepositShortTenure | Week-2/Day-9_10/InterestCalculator/src/com/interest/test/InterestCalculatorTest.java:77-84 | 50000 for 10 days at age 35 earns 2250. |
| InterestExamples.FixedDepositSamples | Week-2/Day-9_10/InterestCalculator/src/com/interest/test/InterestCalculatorTest.java:87-134 | The sampled bands earn 2500 (senior, 12 days), 2375, 2750, 3750 and 4000. |
| InterestExamples.FixedDepositHighValue | Week-2/Day-9_10/InterestCalculator/src/com/interest/test/InterestCalculatorTest.java:137-144 | 10,000,001 for 90 days at age 35 gets the rate 8.5. That the rate above the threshold does not depend on age is `FixedDeposit.HighValueIgnoresAge`. |
| InterestExamples.FixedDepositRejections | Week-2/Day-9_10/InterestCalculator/src/com/interest/test/InterestCalculatorTest.java:147-160 | Negative days and negative age are rejected with their messages. |
| InterestExamples.RecurringSixMonths | Week-2/Day-9_10/InterestCalculator/src/com/interest/test/InterestCalculatorTest.java:169-186 | 1000 a month for 6 months earns 75 at 35 and 80 at exactly 60, in both versions. |
| InterestExamples.RecurringSamples | Week-2/Day-9_10/InterestCalculator/src/com/interest/test/InterestCalculatorTest.java:189-236 | 9, 12, 15, 18 and 21 (senior) months earn 77.5, 80, 82.5, 85 and 92.5. |
| InterestExamples.RecurringRejections | Week-2/Day-9_10/InterestCalculator/src/com/interest/test/InterestCalculatorTest.java:239-260 | Negative amount, months and age are rejected with their messages, and both versions give the same error for each. The current version rejects 10 months with the month-set message, and the earlier one accepts it. |
| Tasks.NatToString | task-manager/Task.java:29 | The decimal rendering of an id is a non-empty string of digits. |
| Tasks.IntToString | task-manager/Task.java:29 | The rendering of an `int` is non-empty and holds no space. |
| Tasks.ParseIntToString | task-manager/Task.java:29 | Reading back the decimal rendering of any integer gives that integer. |
| Tasks.FirstIndexOf | task-manager/Task.java:29 | The position of the first occurrence of a character, or the length when there is none. |
| Tasks.LastIndexOf | task-manager/Task.java:29 | The position of the last occurrence of a character, or -1 when there is none. |
| Tasks.ToString | task-manager/Task.java:28-30 | The id runs to the first space, the priority name starts after the last space, and the title, spaces and all, lies between them. |
| Tasks.SpacesAround | task-manager/Task.java:28-30 | In "id title name" with a space-free id and name, the first space ends the id and the last space starts the name. |
| Tasks.ParseFields | task-manager/Task.java:28-30 | The text "id title name" splits at its first and last spaces into exactly those three fields, even when the title holds spaces. |
| Tasks.ParseToString | task-manager/Task.java:9-30 | `toString` loses nothing: parsing it gives back the task's id, title and priority. |
| TaskManager.Filter | task-manager/TaskService.java:61-66 | The filtered list is never longer than the input. |
| TaskManager.FilterMembers | task-manager/TaskService.java:61-66 | The filter holds exactly the tasks of the list that satisfy the predicate. |
| TaskManager.FilterIsSubsequence | task-manager/TaskService.java:61-66 | The filter keeps the list order: its result is a subsequence of the list. |
| TaskManager.FilterPartition | task-manager/TaskService.java:42-51 | Filtering by a predicate and by its negation splits the list: together they hold every task exactly as often as the list does. |
| TaskManager.Map | task-manager/TaskService.java:69-74 | The mapped list has the list's length, with element i the function applied to task i. |
| TaskManager.FirstWithId | task-manager/TaskService.java:85-87 | The index of the first task with the id, or none when no task has it. |
| TaskManager.Join | task-manager/TaskService.java:96 | The joined titles are every title plus two characters per separator. |
| TaskManager.JoinAppend | task-manager/TaskService.java:96 | Joining with ", " is associative: joining two parts is joining each and placing ", " between. |
| TaskManager.TotalLengthSnoc | task-manager/TaskService.java:94-96 | Appending a title adds its length to the total. |
| TaskManager.Titles | task-manager/TaskService.java:94-95 | One title per task, in list order: title i is task i's. |
| TaskManager.JoinLayout | task-manager/TaskService.java:94-96 | Title i sits in the joined string right after the i titles before it and their i separators, and is followed by ", " unless it is the last. |
| TaskManager.TaskService.constructor | task-manager/TaskService.java:7-8 | A new service has no tasks and no completed ids. |
| TaskManager.TaskService.AddTask | task-manager/TaskService.java:11-13 | The task is appended at the end, duplicate ids included; the completed set is unchanged. |
| TaskManager.TaskService.MarkCompleted | task-manager/TaskService.java:16-28 | An unknown id fails "Task ID not found". A known, already completed id fails "Task already completed". Otherwise exactly the id is added. Failures change nothing and the task list never changes. |
| TaskManager.TaskService.Completed | task-manager/TaskService.java:41-45 | The tasks whose id is completed, taken from the list. |
| TaskManager.TaskService.Pending | task-manager/TaskService.java:48-52 | The tasks whose id is not completed, taken from the list. |
| TaskManager.TaskService.FilterTasks | task-manager/TaskService.java:61-66 | Exactly the tasks that satisfy the predicate. |
| TaskManager.TaskService.MapTasks | task-manager/TaskService.java:69-74 | One result per task, in list order. |
| TaskManager.TaskService.GetTaskOrDefault | task-manager/TaskService.java:83-89 | The first task in list order with the id, or the supplier's task when none has it. |
| TaskManager.TaskService.CombinedTaskTitles | task-manager/TaskService.java:92-98 | "No tasks available" for no tasks. Otherwise the join of the titles: its length is the titles' total plus two per separator, and title i sits right after the titles before it and their separators, followed by ", " unless it is the last. |
| TaskManager.ViewsPartition | task-manager/TaskService.java:40-52 | The completed and pending views partition the task list, as a multiset, and each keeps the list order. |
| Bank.Apply | Day-1/Task-3/BankAccountDemo.java:6-22 | A positive deposit adds exactly its amount. A positive withdrawal within the balance subtracts exactly its amount. Any other operation leaves the balance unchanged. |
| Bank.ApplyKeepsNonNegative | Day-1/Task-3/BankAccountDemo.java:6-22 | From a non-negative balance, one operation leaves it non-negative. A withdrawal never raises it and a deposit never lowers it. |
| Bank.ApplyAllKeepsNonNegative | Day-1/Task-3/BankAccountDemo.java:6-22 | A non-negative balance stays non-negative under any sequence of deposits and withdrawals. |
| Bank.DemoBalance | Day-1/Task-3/BankAccountDemo.java:32-35 | 6000, deposit 2000, withdraw 3500 leaves 4500. |
| Bank.BankAccount.constructor | Day-1/Task-3/BankAccountDemo.java:3-5 | The balance starts at the initial value. |
| Bank.BankAccount.Deposit | Day-1/Task-3/BankAccountDemo.java:6-12 | A positive amount is added exactly. Any other amount is refused with "Invalid amount" and changes nothing. |
| Bank.BankAccount.Withdraw | Day-1/Task-3/BankAccountDemo.java:13-22 | An amount above the balance is refused. A positive amount within the balance is subtracted exactly. Any other amount is refused as invalid. Refusals change nothing. |
| Bank.BankAccount.GetBalance | Day-1/Task-3/BankAccountDemo.java:23-25 | The current balance. |
| Bank.Demo | Day-1/Task-3/BankAccountDemo.java:30-36 | The demo run on an account object ends with a balance of 4500. |
| StudentGrades.Grade | Day-1/Task-2/StudentManagement.java:10-17 | One of the six grades, and a pass (anything but "Fail") exactly when the marks exceed 50. |
| StudentGrades.GradeBands | Day-1/Task-2/StudentManagement.java:10-17 | Each grade's band of marks, as an if-and-only-if, with the strict lower bounds of C and D. |
| StudentGrades.StrictBoundaries | Day-1/Task-2/StudentManagement.java:11-16 | 60 is a D and 50 fails, while 70, 80 and 90 reach B, A and A+. |
| StudentGrades.GradeMonotone | Day-1/Task-2/StudentManagement.java:11-16 | More marks never give a lower grade. |
| StudentGrades.SampleGrades | Day-1/Task-2/StudentManagement.java:28-30 | The sample students' marks 87, 77 and 93 grade A, B and A+. |
| SecondLargestScan.SecondLargest | Week-1/Day-4/SecondLargest.java:12-22 | `largest` is the array's maximum, or MIN_VALUE for an empty array. `second` is the greatest element strictly below `largest`, or MIN_VALUE when there is none, and is below `largest` unless both are MIN_VALUE. The array is only read. |
| SecondLargestScan.RepeatedMaximum | Week-1/Day-4/SecondLargest.java:17-19 | Copies of the maximum never become the second largest: [5, 9, 9] gives 5 and [4, 4] gives MIN_VALUE. |
| MaximumSumMatrix.RowSumCongruent | Day-4/MaximumSumMatrix.java:18-22 | The `int` row sum is the exact sum modulo 2^32. |
| MaximumSumMatrix.RowSumWraps | Day-4/MaximumSumMatrix.java:18-22 | The `int` row sum agrees with the exact sum modulo 2^32, and equals it whenever the exact sum fits in an `int`. |
| MaximumSumMatrix.MaxRowSum | Day-4/MaximumSumMatrix.java:16-27 | Every row sum is at most `max`. A non-negative `indx` is the first row whose sum equals `max`. `indx` stays -1 exactly when every row sum is MIN_VALUE, in particular with no rows. With no columns and some rows it reports 0 at index 0. The matrix is only read. |
| TopScoringStudents.Insert | Week-1/Day-5_6/task1/Task1TopScoringStudents.java:16 | One insertion step adds one element. |
| TopScoringStudents.InsertPermutes | Week-1/Day-5_6/task1/Task1TopScoringStudents.java:16 | Insertion adds exactly the new student. |
| TopScoringStudents.SortByMarksDesc | Week-1/Day-5_6/task1/Task1TopScoringStudents.java:16 | The sort keeps the number of students. |
| TopScoringStudents.InsertDescending | Week-1/Day-5_6/task1/Task1TopScoringStudents.java:16 | Inserting into a list in non-increasing order of marks keeps it in that order. |
| TopScoringStudents.InsertStable | Week-1/Day-5_6/task1/Task1TopScoringStudents.java:16 | A new student goes behind every earlier student with the same marks. |
| TopScoringStudents.SortDescending | Week-1/Day-5_6/task1/Task1TopScoringStudents.java:16 | The sort puts marks in non-increasing order. |
| TopScoringStudents.SortPermutes | Week-1/Day-5_6/task1/Task1TopScoringStudents.java:16 | The sort keeps every student exactly as often as they occur. |
| TopScoringStudents.SortStable | Week-1/Day-5_6/task1/Task1TopScoringStudents.java:16 | The sort is stable: students with equal marks keep their list order. |
| TopScoringStudents.SortCorrect | Week-1/Day-5_6/task1/Task1TopScoringStudents.java:16 | The sort orders marks non-increasingly and is a permutation. It is stable: students with equal marks keep their list order. |
| TopScoringStudents.TopStudents | Week-1/Day-5_6/task1/Task1TopScoringStudents.java:16-17 | `limit(3)`: the first min(3, n) students of the sorted list. |
| TopScoringStudents.LeftOut | Week-1/Day-5_6/task1/Task1TopScoringStudents.java:16-17 | The students `limit(3)` drops: followed on from the kept ones, they give back the sorted list. |
| TopScoringStudents.TopNames | Week-1/Day-5_6/task1/Task1TopScoringStudents.java:15-19 | One name per kept student, in order: name i is the name of top student i. |
| TopScoringStudents.TopNamesCorrect | Week-1/Day-5_6/task1/Task1TopScoringStudents.java:15-19 | min(3, n) names of the top students, in non-increasing order of marks. No left-out student has more marks than a kept one, and kept plus left out is the input. |
| TopScoringStudents.SampleTopThree | Week-1/Day-5_6/task1/Task1TopScoringStudents.java:7-19 | The sample class yields [Chloe, Asha, Elena]. |
| UniqueEmails.Dedup | Week-1/Day-5_6/task2/Task2UniqueEmailValidator.java:16-23 | `unique` is never longer than the input, and the first email is always its first entry. |
| UniqueEmails.Dups | Week-1/Day-5_6/task2/Task2UniqueEmailValidator.java:19-22 | `duplicates` is shorter than any non-empty input: the first email can never be a duplicate. |
| UniqueEmails.First | Week-1/Day-5_6/task2/Task2UniqueEmailValidator.java:19-20 | The index of an email's first occurrence. |
| UniqueEmails.Second | Week-1/Day-5_6/task2/Task2UniqueEmailValidator.java:19-21 | The index where an email occurs for the second time. |
| UniqueEmails.PartitionEmails | Week-1/Day-5_6/task2/Task2UniqueEmailValidator.java:16-23 | The loop leaves `unique` and `duplicates` equal to their specification functions, and neither holds a repeat. |
| UniqueEmails.Step | Week-1/Day-5_6/task2/Task2UniqueEmailValidator.java:20-21 | One email: it joins `unique` if absent there; otherwise it joins `duplicates` if absent there. |
| UniqueEmails.DedupMembers | Week-1/Day-5_6/task2/Task2UniqueEmailValidator.java:16-23 | `unique` holds exactly the input's emails. |
| UniqueEmails.DedupNoRepeats | Week-1/Day-5_6/task2/Task2UniqueEmailValidator.java:16-23 | `unique` holds each email once. |
| UniqueEmails.DedupOrder | Week-1/Day-5_6/task2/Task2UniqueEmailValidator.java:16-23 | `unique` lists its emails in order of first occurrence. |
| UniqueEmails.DupsMembers | Week-1/Day-5_6/task2/Task2UniqueEmailValidator.java:19-22 | An email is in `duplicates` exactly when it occurs at least twice. |
| UniqueEmails.DupsNoRepeats | Week-1/Day-5_6/task2/Task2UniqueEmailValidator.java:17-22 | `duplicates` holds each email once. |
| UniqueEmails.DupsOrder | Week-1/Day-5_6/task2/Task2UniqueEmailValidator.java:17-22 | `duplicates` lists its emails in order of second occurrence. |
| UniqueEmails.DupsWithinDedup | Week-1/Day-5_6/task2/Task2UniqueEmailValidator.java:19-22 | Every duplicate is also in `unique`. |
| UniqueEmails.NoRepeatsSnoc | Week-1/Day-5_6/task2/Task2UniqueEmailValidator.java:20 | Appending an email keeps a list repeat-free exactly when the email is new. |
| UniqueEmails.DedupSize | Week-1/Day-5_6/task2/Task2UniqueEmailValidator.java:16-25 | `unique.size()` is at most the number of emails. It equals it exactly when no email repeats, which is exactly when `duplicates` is empty. |
| UniqueEmails.SampleSecondHalf | Week-1/Day-5_6/task2/Task2UniqueEmailValidator.java:7-12 | After the first five sample emails, `unique` is [a, b, c] and `duplicates` is [a, b]. |
| UniqueEmails.SampleSplit | Week-1/Day-5_6/task2/Task2UniqueEmailValidator.java:7-23 | For any four distinct addresses in the sample's pattern, `unique` is all four in order and `duplicates` is the first two. |
| UniqueEmails.Sample | Week-1/Day-5_6/task2/Task2UniqueEmailValidator.java:7-26 | The sample gives `unique` size 4 and `duplicates` [a@ex.com, b@ex.com]. |
| TextProcessing.Pieces | Week-1/Day-4/Textprocessing.java:7 | Splitting at every space gives one more piece than there are spaces, and no piece holds a space. |
| TextProcessing.StripTrailingEmpty | Week-1/Day-4/Textprocessing.java:7 | `split` drops only trailing empty strings: the result is a prefix, everything dropped is empty, and the last kept piece is non-empty. |
| TextProcessing.JoinPieces | Week-1/Day-4/Textprocessing.java:7 | Joining the pieces with single spaces gives back the sentence. |
| TextProcessing.PiecesNonEmpty | Week-1/Day-4/Textprocessing.java:7 | A sentence with no leading, trailing or repeated space has no empty piece. |
| TextProcessing.Split | Week-1/Day-4/Textprocessing.java:7 | A sentence without a space is its own only word. Otherwise the words are a prefix of the pieces, every dropped piece is empty, and the last word kept is not empty, so all trailing empty strings are removed (" " gives no words). No word holds a space. |
| TextProcessing.WordCount | Week-1/Day-4/Textprocessing.java:7-8 | The word count is at most the number of spaces plus one. |
| TextProcessing.WordCountWellSpaced | Week-1/Day-4/Textprocessing.java:7-8 | For such a sentence the word count is the number of spaces plus one. Every word is non-empty and space-free, and the words joined by spaces give back the sentence. |
| TextProcessing.SpaceFreePieces | Week-1/Day-4/Textprocessing.java:7 | A sentence without spaces is its own only piece. |
| TextProcessing.PiecesOfSpaces | Week-1/Day-4/Textprocessing.java:7 | The pieces of a sentence of spaces only are all empty. |
| TextProcessing.BlankSentences | Week-1/Day-4/Textprocessing.java:7-8 | A non-empty sentence of spaces has no words, and the empty sentence has one. |
| TextProcessing.Reverse | Week-1/Day-4/Textprocessing.java:12-13 | The reversal has the same length, and character i is original character n-1-i. |
| TextProcessing.ReverseReverse | Week-1/Day-4/Textprocessing.java:12-13 | Reversing twice gives back the sentence. |
| TextProcessing.IndexFrom | Week-1/Day-4/Textprocessing.java:20 | The lowest index at or after the start where the word occurs, or -1 when it occurs nowhere there. |
| TextProcessing.IndexOf | Week-1/Day-4/Textprocessing.java:20 | The lowest index where the word occurs, or -1 exactly when it occurs nowhere. |
| TextProcessing.ReplaceFirst | Week-1/Day-4/Textprocessing.java:20-25 | With index -1 the sentence is unchanged. Otherwise only the first occurrence is replaced: the text before and after it is kept and the length changes by the difference of the two words. |
| TextProcessing.LaterOccurrencesKept | Week-1/Day-4/Textprocessing.java:20-22 | An occurrence after the replaced one is still there, shifted by the change in length. |
| TextProcessing.StringBuffer.constructor | Week-1/Day-4/Textprocessing.java:15 | The buffer starts with the sentence. |
| TextProcessing.StringBuffer.Replace | Week-1/Day-4/Textprocessing.java:22 | The characters from start to end, with end clamped to the length, give way to the new string. |
| TextProcessing.UpdateSentence | Week-1/Day-4/Textprocessing.java:15-26 | "Word not found" is reported exactly when the word occurs nowhere. The buffer ends holding the sentence with its first occurrence replaced. |

## Left out
- Console I/O is not modelled: the `Scanner` reads and `println` calls. Inputs are parameters, and what is printed is returned where it carries information (the bank notices, "Word not found", the printed counts and lists).
- The interest calculator's menu driver (`InterestCalculatorMain`) and the test class's pass/fail counters and printing are not modelled. The test cases appear only as the example members of `InterestExamples`.
- The `Account` base class is not part of this model. Its prior `interestRate` is a parameter, and no other behaviour is assumed for it.
- `InvalidInputException` and `InvalidTaskException` are modelled as values carrying their messages. Their class hierarchy is not modelled.
- Floating point is not modelled: `double` is an exact `real`, so rounding, NaN and infinities are not captured.
- `Savings.SBRate`: `equalsIgnoreCase` folds ASCII letters only. Java also folds non-ASCII letters, which is not modelled.
- `TaskService.loadFromFile` and `saveToFile` are not modelled, because Java serialization is file I/O.
- The `@LogExecution` annotation and the reflection demo in `Main` are not modelled.
- `groupByPriority` is left out: it only prints a `HashMap`, whose order is unspecified.
- `processTasks` is left out: it only hands each task to a caller-supplied consumer for side effects.
- `showAll` and `displayTasks` are left out because they only print the list. `showCompleted` and `showPending` are modelled by the sequences they print.
- The `Priority` enum is not part of this model. It is modelled as the three constants `HIGH`, `MEDIUM` and `LOW` that the task manager uses, printed by name.
- `toUpperCase` in `Textprocessing` is not modelled, because it depends on locale and Unicode case tables.
- `split(" ")` is modelled for its literal single-space separator only, not for general regular expressions.
- A Dafny `char` is a Unicode scalar value, so `Reverse` reverses code points. That matches `StringBuilder.reverse`, which keeps surrogate pairs together. UTF-16 indexing inside `indexOf` and `replace` is not distinguished from code-point indexing.
