# Shinhan practice projects: a verified Dafny model

This project models the logic of the `an-sehyeon/Shinhan` repository. The repository is a Spring Boot board and upload backend with a React practice front end. The model covers these parts:

- **Front-end reducers and sanitisers.** The todo reducer, the diary reducer and its helpers (emotion images, the `year-MM-DD` date text), the counter reducer with its button-text dispatch, and the employee-record sanitiser.
- **The sign-in / sign-up page.** A class whose fields are the page's four pieces of state. Its methods are the page's event handlers, including the ordered sign-up validation.
- **The board backend.**
  - The QueryDSL search condition built from the type letters t/c/w.
  - The 1-based page request.
  - An in-memory board and reply table, a class with JPA's `save` / `deleteById` / `findById` semantics and the board-to-reply foreign key.
  - The board and reply services on top of that table.
- **Uploads and login.**
  - How an uploaded file is named, served back and removed.
  - The `uploadFile` loop, as a method proved against a loop-free definition of what one call answers and saves.
  - The URL getters of the upload result.
  - The three-way login decision.

Foreign calls become parameters:

- BCrypt's `matches` and the JWT generator.
- `UUID.randomUUID`, the date folder and the member lookup.
- Whether a file transfer succeeds.
- URL encoding and decoding.
- The file system, as a set of paths.

Java's `intValue()` on the saved ids is modelled with its 32-bit wrap-around. So is `page - 1` in the page request. JavaScript values that can be numbers or strings (the diary ids) are a small datatype, so strict `===` and `String()` coercion can be told apart.

Modules, one per source file:

- `Wrappers`, `Decimal`, `Lists` and `JavaInt`: shared helpers.
- `TodoReducer`, `DiaryUtil`, `CounterReduce`, `EmpCommon` and `AuthPage`: the front end.
- `BoardEntities`, `BoardSearch`, `PageRequest`, `BoardStore`, `WebBoardService` and `WebReplyService`: the board backend.
- `UploadNaming`, `UploadController` and `AuthLogin`: uploads and login.

## Model

Source paths are relative to the repository root.

| member | source | states |
|---|---|---|
| TodoReducer.CreatePrepends | work/react-practice/src/project2/todoReducer.js:5-6 | CREATE puts the new item first, followed by the old items in order; the length grows by one |
| TodoReducer.UpdateKeepsShape | work/react-practice/src/project2/todoReducer.js:8-23 | UPDATE keeps length and order, and every item whose id is not the target is unchanged |
| TodoReducer.UpdateIsDoneToggles | work/react-practice/src/project2/todoReducer.js:12-14 | UPDATE with colname "isDone" negates isDone on each matching item and changes nothing else on it |
| TodoReducer.UpdateOtherSetsContent | work/react-practice/src/project2/todoReducer.js:15-17 | UPDATE with any other colname sets content to the value on each matching item |
| TodoReducer.ToggleTwiceIsIdentity | work/react-practice/src/project2/todoReducer.js:13-14 | two isDone toggles with the same target give back the original list |
| TodoReducer.DeleteRemovesExactly | work/react-practice/src/project2/todoReducer.js:24-25 | DELETE keeps exactly the items whose id differs from the target, in their original order |
| TodoReducer.DeleteAbsentIsIdentity | work/react-practice/src/project2/todoReducer.js:24-25 | deleting an id no item has leaves the list as it is |
| TodoReducer.UnknownIsIdentity | work/react-practice/src/project2/todoReducer.js:26-27 | any other action type returns the state unchanged |
| TodoReducer.Reduce | work/react-practice/src/project2/todoReducer.js:3-29 | the reducer's dispatch on the action type; each case is stated by CreatePrepends, the Update lemmas, DeleteRemovesExactly and UnknownIsIdentity |
| DiaryUtil.GetEmotionImgById | work/react-practice/src/project3Edu/util/diaryUtil.js:8-23 | an image exactly for the numbers 1 to 5, the n-th image for n; null for every other id, strings included |
| DiaryUtil.EmotionListShape | work/react-practice/src/project3Edu/util/diaryUtil.js:38-44 | five emotions with ids 1..5 in order, each paired with the image of its id and its Korean name |
| DiaryUtil.PadSpec | work/react-practice/src/project3Edu/util/diaryUtil.js:29-34 | a number below 10 gets one leading "0", any other is written as it is |
| DiaryUtil.FormattedDateParts | work/react-practice/src/project3Edu/util/diaryUtil.js:25-36 | the text is the unpadded year, "-", the two-digit month (month index + 1), "-", the two-digit day |
| DiaryUtil.FormattedDateInjective | work/react-practice/src/project3Edu/util/diaryUtil.js:25-36 | two calendar dates give the same text only if they are the same date |
| DiaryUtil.GetFormattedDate | work/react-practice/src/project3Edu/util/diaryUtil.js:25-36 | the date text; its form is stated by FormattedDateParts and its injectivity by FormattedDateInjective |
| DiaryUtil.InitReplaces | work/react-practice/src/project3Edu/util/diaryUtil.js:69-70 | INIT returns the given data as the whole state |
| DiaryUtil.CreatePrepends | work/react-practice/src/project3Edu/util/diaryUtil.js:71-75 | CREATE puts the new entry first, followed by the old entries |
| DiaryUtil.UpdateReplacesWhole | work/react-practice/src/project3Edu/util/diaryUtil.js:76-82 | UPDATE replaces with the whole new entry each entry whose id has the same String() text, keeping length, order and the other entries |
| DiaryUtil.NumericIdsMatchByValue | work/react-practice/src/project3Edu/util/diaryUtil.js:77-78 | for number ids, String() comparison is plain equality |
| DiaryUtil.DeleteRemovesExactly | work/react-practice/src/project3Edu/util/diaryUtil.js:83-86 | DELETE keeps exactly the entries whose id is not strictly equal to the target, in order |
| DiaryUtil.DeleteStringTargetKeepsNumericIds | work/react-practice/src/project3Edu/util/diaryUtil.js:83-86 | a string target never removes an entry with a number id |
| DiaryUtil.UpdateCoercesDeleteDoesNot | work/react-practice/src/project3Edu/util/diaryUtil.js:76-86 | a target "1" updates the entry with id 1 but does not delete it |
| DiaryUtil.UnknownIsIdentity | work/react-practice/src/project3Edu/util/diaryUtil.js:87-88 | an unknown action returns the state unchanged |
| DiaryUtil.Reduce | work/react-practice/src/project3Edu/util/diaryUtil.js:67-90 | the reducer's dispatch on the action type; each case is stated by InitReplaces, CreatePrepends, UpdateReplacesWhole, DeleteRemovesExactly and UnknownIsIdentity |
| Decimal.ParseNatToText | work/react-practice/src/project3Edu/util/diaryUtil.js:35 | the decimal text of a number reads back as that number |
| Decimal.NatToTextInjective | work/react-practice/src/project3Edu/util/diaryUtil.js:35 | different numbers have different decimal texts |
| Decimal.IntToTextInjective | work/react-practice/src/project3Edu/util/diaryUtil.js:35 | different integers, negative ones included, have different texts |
| CounterReduce.CountReducer | work/react-practice/src/components2/CounterReduce.jsx:4-15 | INCREMENT adds one, DECREMENT subtracts one, RESET gives 0, any other type keeps the state |
| CounterReduce.IncrementThenDecrement | work/react-practice/src/components2/CounterReduce.jsx:6-9 | INCREMENT followed by DECREMENT is the identity |
| CounterReduce.ResetIsZero | work/react-practice/src/components2/CounterReduce.jsx:10-11 | RESET gives 0 from every state |
| CounterReduce.UnknownIsIdentity | work/react-practice/src/components2/CounterReduce.jsx:12-13 | an unknown type leaves the count alone |
| CounterReduce.TrimStart | work/react-practice/src/components2/CounterReduce.jsx:20 | the result is a suffix of the text that does not start with white space, and what was cut is all white space |
| CounterReduce.TrimEnd | work/react-practice/src/components2/CounterReduce.jsx:20 | the result is a prefix of the text that does not end with white space, and what was cut is all white space |
| CounterReduce.TrimOfPadded | work/react-practice/src/components2/CounterReduce.jsx:20 | trimming text padded with white space on both sides gives back the inner text when that text has no white space at its ends |
| CounterReduce.Trim | work/react-practice/src/components2/CounterReduce.jsx:20 | trim is TrimEnd after TrimStart; what it removes is stated by those two and by TrimOfPadded |
| CounterReduce.ClickAction | work/react-practice/src/components2/CounterReduce.jsx:19-29 | trimmed text "+" gives INCREMENT, "-" gives DECREMENT, anything else gives RESET |
| CounterReduce.ButtonsDispatch | work/react-practice/src/components2/CounterReduce.jsx:19-29 | the labels of the three buttons, with the white space around them, dispatch DECREMENT, RESET and INCREMENT |
| CounterReduce.Click | work/react-practice/src/components2/CounterReduce.jsx:19-29 | a click dispatches ClickAction's action to the reducer; stated by ClickAction and ButtonsDispatch |
| EmpCommon.InitEmpShape | work/react-practice/src/emp/common.js:3-16 | the initial employee has exactly the twelve keys, each mapped to "" |
| EmpCommon.SanitizeNullToEmpty | work/react-practice/src/emp/common.js:18-29 | the loop over the keys builds exactly the sanitised record |
| EmpCommon.Sanitized | work/react-practice/src/emp/common.js:18-29 | the record the loop builds; its keys and values are stated by SanitizedKeys, NullishBecomesEmpty, OtherValuesCopied, NoNullishLeft and SanitizeIdempotent |
| EmpCommon.SanitizedKeys | work/react-practice/src/emp/common.js:19-20 | the result has exactly the keys of the initial employee; extra input keys are dropped |
| EmpCommon.NullishBecomesEmpty | work/react-practice/src/emp/common.js:21-24 | a null or undefined (or missing) value becomes "", never 0, because every initial value is a string |
| EmpCommon.OtherValuesCopied | work/react-practice/src/emp/common.js:21-26 | any other value is copied unchanged |
| EmpCommon.NoNullishLeft | work/react-practice/src/emp/common.js:18-29 | no value of the result is null or undefined |
| EmpCommon.SanitizeIdempotent | work/react-practice/src/emp/common.js:18-29 | sanitising twice is the same as sanitising once |
| AuthPage.InitMemberShape | work/react-practice/src/board/AuthPage.jsx:7-15 | the blank form has every field empty except the role "USER" |
| AuthPage.ValidationError | work/react-practice/src/board/AuthPage.jsx:49-61 | the checks run in order (password mismatch, empty name, empty address or detail) and the first that fails gives its message; none fails exactly when all hold |
| AuthPage.SignupPayload | work/react-practice/src/board/AuthPage.jsx:67-75 | the request holds exactly mid, mpassword, mname, mrole, address and addressDetail, copied from the form, never confirmPassword |
| AuthPage.SignupFailureText | work/react-practice/src/board/AuthPage.jsx:79 | the server's text when it is non-empty, the fixed failure message otherwise |
| AuthPage.AuthPageState.OpenPostcode | work/react-practice/src/board/AuthPage.jsx:180 | the postcode search opens and nothing else changes |
| AuthPage.AuthPageState.ClosePostcode | work/react-practice/src/board/AuthPage.jsx:215 | the postcode search closes and nothing else changes |
| AuthPage.AuthPageState.HandlePostcodeComplete | work/react-practice/src/board/AuthPage.jsx:33-36 | only the address field changes and the postcode search closes |
| AuthPage.AuthPageState.HandleChange | work/react-practice/src/board/AuthPage.jsx:37-40 | only the named field changes |
| AuthPage.AuthPageState.ToggleMode | work/react-practice/src/board/AuthPage.jsx:41-45 | the mode flips, the form is reset to the blank form and the error is cleared |
| AuthPage.AuthPageState.HandleSubmit | work/react-practice/src/board/AuthPage.jsx:46-82 | the error is cleared first; in sign-in mode no check runs and login is called with the id and password; in sign-up mode the first failing check shows its message and nothing is sent; otherwise the payload is posted, and success returns to a blank sign-in form while failure shows the failure text |
| AuthPage.SignupRoundTrip | work/react-practice/src/board/AuthPage.jsx:76-77 | a successful sign-up leaves sign-in mode with a blank form whose role is "USER" |
| BoardSearch.MakePredicate | work/sts-workspace/sbproject/src/main/java/com/shinhan/sbroject/repositoryfinal/WebBoardRepository.java:30-45 | a null type, or a type without t, c or w, gives the empty condition; a letter with a null keyword is an error; otherwise the condition holds one disjunct per letter present |
| BoardSearch.NoLetterMatchesAll | work/sts-workspace/sbproject/src/main/java/com/shinhan/sbroject/repositoryfinal/WebBoardRepository.java:33-34 | the empty condition matches every board |
| BoardSearch.MatchesIff | work/sts-workspace/sbproject/src/main/java/com/shinhan/sbroject/repositoryfinal/WebBoardRepository.java:35-44 | with a letter present, a board matches iff its title contains the keyword (t), its content contains it (c) or its writer equals it (w) |
| BoardSearch.OnlyLettersMatter | work/sts-workspace/sbproject/src/main/java/com/shinhan/sbroject/repositoryfinal/WebBoardRepository.java:35-44 | two types with the same t, c and w letters build the same condition, whatever their order, repetition or other letters |
| PageRequest.NewPageRequest | work/sts-workspace/sbproject/src/main/java/com/shinhan/sbroject/paging/PageRequestDTO.java:22-25 | page and size are set, type and keyword stay null |
| PageRequest.GetPageable | work/sts-workspace/sbproject/src/main/java/com/shinhan/sbroject/paging/PageRequestDTO.java:27-29 | the index is page - 1 with int wrap-around, size and sort pass through; a negative index is refused first, then a size below 1 |
| PageRequest.PageableFromOneBased | work/sts-workspace/sbproject/src/main/java/com/shinhan/sbroject/paging/PageRequestDTO.java:27-29 | page p (at least 1) of size s (at least 1) is index p - 1 of size s |
| PageRequest.PageableRefusesNonPositive | work/sts-workspace/sbproject/src/main/java/com/shinhan/sbroject/paging/PageRequestDTO.java:27-29 | pages 0 and below are refused, except the most negative int, which wraps to the largest index |
| PageRequest.CoerceListRequest | work/sts-workspace/sbproject/src/main/java/com/shinhan/sbroject/controllerfinal/WebBoardRestController.java:88-91 | page 0 becomes page 1 of size 10, type and keyword kept; any other request passes unchanged |
| PageRequest.CoercedDefaultIsFirstPage | work/sts-workspace/sbproject/src/main/java/com/shinhan/sbroject/controllerfinal/WebBoardRestController.java:88-91 | a request for page 0 becomes page 1 of size 10, which is index 0 |
| JavaInt.Wrap | work/sts-workspace/sbproject/src/main/java/com/shinhan/sbroject/servicefinal/WebBoardServiceImpl.java:106 | the 32-bit int congruent to a number modulo 2^32 |
| BoardStore.FindBoard | work/sts-workspace/sbproject/src/main/java/com/shinhan/sbroject/servicefinal/WebBoardServiceImpl.java:82 | a row exactly when the table holds that bno, and then a stored row with that bno |
| BoardStore.FindReply | work/sts-workspace/sbproject/src/main/java/com/shinhan/sbroject/servicefinal/WebReplyServiceImpl.java:39 | a row exactly when the table holds that rno, and then a stored row with that rno |
| BoardStore.FindBoardUnique | work/sts-workspace/sbproject/src/main/java/com/shinhan/sbroject/entityfinal/WebBoardEntity.java:35-37 | ids are a key: in a table in id order, findById finds the one row with that id |
| BoardStore.FindReplyUnique | work/sts-workspace/sbproject/src/main/java/com/shinhan/sbroject/entityfinal/WebReplyEntity.java:30-32 | the same for replies |
| BoardStore.FindByBoardCounts | work/sts-workspace/sbproject/src/main/java/com/shinhan/sbroject/repositoryfinal/WebReplyRepository.java:13 | findByBoard returns exactly the replies of the board, and as many as the board has |
| BoardStore.CountRepliesAppend | work/sts-workspace/sbproject/src/main/java/com/shinhan/sbroject/servicefinal/WebBoardServiceImpl.java:89-90 | the reply count of two tables joined is the sum of their counts |
| BoardStore.ReplaceBoardSpec | work/sts-workspace/sbproject/src/main/java/com/shinhan/sbroject/servicefinal/WebBoardServiceImpl.java:115 | saving over a stored board keeps every id in place and puts the new row in the table |
| BoardStore.ReplaceReplySpec | work/sts-workspace/sbproject/src/main/java/com/shinhan/sbroject/servicefinal/WebReplyServiceImpl.java:66 | the same for replies |
| BoardStore.DeleteBoardKeepsInvariant | work/sts-workspace/sbproject/src/main/java/com/shinhan/sbroject/entityfinal/WebBoardEntity.java:53-58 | removing a board together with its replies (cascade) keeps ids ordered and below the next id, and every reply's board stored |
| BoardStore.DeleteReplyKeepsInvariant | work/sts-workspace/sbproject/src/main/java/com/shinhan/sbroject/servicefinal/WebReplyServiceImpl.java:72 | removing a reply keeps the table invariant |
| BoardStore.Store.SaveBoard | work/sts-workspace/sbproject/src/main/java/com/shinhan/sbroject/servicefinal/WebBoardServiceImpl.java:104 | a stored id has all its columns overwritten in place; no id or an unknown id inserts the row under the next id; replies are untouched |
| BoardStore.Store.DeleteBoardById | work/sts-workspace/sbproject/src/main/java/com/shinhan/sbroject/servicefinal/WebBoardServiceImpl.java:121 | the board and all its replies are gone, everything else stays in order; an absent id is a no-op |
| BoardStore.Store.SaveReply | work/sts-workspace/sbproject/src/main/java/com/shinhan/sbroject/servicefinal/WebReplyServiceImpl.java:58-68 | fails without change when the board is null or not stored; otherwise overwrites a stored rno or inserts under the next rno, attached to the board |
| BoardStore.Store.DeleteReplyById | work/sts-workspace/sbproject/src/main/java/com/shinhan/sbroject/servicefinal/WebReplyServiceImpl.java:72 | the reply is gone and every other row stays in order |
| WebBoardService.ToDto | work/sts-workspace/sbproject/src/main/java/com/shinhan/sbroject/servicefinal/WebBoardServiceImpl.java:70-73 | the DTO has the entity's bno, title, writer and content, and no reply list or count |
| WebBoardService.GetList | work/sts-workspace/sbproject/src/main/java/com/shinhan/sbroject/servicefinal/WebBoardServiceImpl.java:45-61 | one DTO per board in order, with its columns, a reply list holding exactly the board's replies and as many as the board has, and that number as reply count |
| WebBoardService.WithReplies | work/sts-workspace/sbproject/src/main/java/com/shinhan/sbroject/servicefinal/WebBoardServiceImpl.java:50-58 | the per-board step of getList: the board's DTO with its replies and their number; stated through GetList |
| WebBoardService.SelectById | work/sts-workspace/sbproject/src/main/java/com/shinhan/sbroject/servicefinal/WebBoardServiceImpl.java:81-92 | null exactly for an absent bno; otherwise the stored row's columns and the number of replies of that board |
| WebBoardService.GetPage | work/sts-workspace/sbproject/src/main/java/com/shinhan/sbroject/servicefinal/WebBoardServiceImpl.java:64-78 | it fails exactly when the page request or the search condition is refused, and a refused page request is reported before the search; the page itself is stated by GetPageSpec |
| WebBoardService.Window | work/sts-workspace/sbproject/src/main/java/com/shinhan/sbroject/servicefinal/WebBoardServiceImpl.java:68 | page index of size rows holds exactly the rows from index times size on, size of them or fewer at the end, none past the end |
| WebBoardService.WindowSpec | work/sts-workspace/sbproject/src/main/java/com/shinhan/sbroject/servicefinal/WebBoardServiceImpl.java:65-68 | every row of a page of the matches is a stored board that matches, in ascending bno order, and every match at a position in the page's range is on the page |
| WebBoardService.GetPageSpec | work/sts-workspace/sbproject/src/main/java/com/shinhan/sbroject/servicefinal/WebBoardServiceImpl.java:64-78 | for page and size of at least 1 and a valid search, the page has index page - 1 and holds the DTOs of the matches at positions (page - 1) times size to page times size - 1, cut short at the last match; the matches are exactly the stored boards that meet the search, in ascending bno, and the total counts them all |
| WebBoardService.WindowDtosExact | work/sts-workspace/sbproject/src/main/java/com/shinhan/sbroject/servicefinal/WebBoardServiceImpl.java:68-75 | the DTOs of a window are those of the matches from row index times size on, as many as the page holds |
| WebBoardService.MatchingSpec | work/sts-workspace/sbproject/src/main/java/com/shinhan/sbroject/servicefinal/WebBoardServiceImpl.java:65-68 | the matches of a search are exactly the stored boards that meet it, in ascending bno order |
| WebBoardService.UnfilteredPageCountsAll | work/sts-workspace/sbproject/src/main/java/com/shinhan/sbroject/servicefinal/WebBoardServiceImpl.java:64-78 | without type and keyword the pages run over every board |
| WebBoardService.Register | work/sts-workspace/sbproject/src/main/java/com/shinhan/sbroject/servicefinal/WebBoardServiceImpl.java:94-107 | the DTO's columns are saved as given (a stored bno is overwritten, writer included) and the saved bno is returned as an int; the next bno advances exactly on an insert |
| WebBoardService.RegisteredBoardReadsBack | work/sts-workspace/sbproject/src/main/java/com/shinhan/sbroject/servicefinal/WebBoardServiceImpl.java:94-107 | a board saved under a new bno reads back with its columns and reply count |
| WebBoardService.Modify | work/sts-workspace/sbproject/src/main/java/com/shinhan/sbroject/servicefinal/WebBoardServiceImpl.java:109-117 | a null bno is an error; an absent bno returns 0 and changes nothing; a stored one gets only the new title and content and its bno is returned |
| WebBoardService.ModifiedBoardReadsBack | work/sts-workspace/sbproject/src/main/java/com/shinhan/sbroject/servicefinal/WebBoardServiceImpl.java:111-116 | after a modify the board reads back with the new title and content and its old writer |
| WebBoardService.Delete | work/sts-workspace/sbproject/src/main/java/com/shinhan/sbroject/servicefinal/WebBoardServiceImpl.java:119-126 | the board and its replies are gone; the result is 1 if the board is still found, else 0, which is always 0 |
| WebReplyService.ToDto | work/sts-workspace/sbproject/src/main/java/com/shinhan/sbroject/servicefinal/WebReplyServiceImpl.java:42-44 | the DTO has the reply's columns and its board's bno |
| WebReplyService.GetList | work/sts-workspace/sbproject/src/main/java/com/shinhan/sbroject/servicefinal/WebReplyServiceImpl.java:25-35 | exactly one DTO per reply of the board, each with bno set to the argument |
| WebReplyService.SelectById | work/sts-workspace/sbproject/src/main/java/com/shinhan/sbroject/servicefinal/WebReplyServiceImpl.java:38-46 | null exactly for an absent rno; otherwise the DTO of the stored reply, with its board's bno |
| WebReplyService.FSave | work/sts-workspace/sbproject/src/main/java/com/shinhan/sbroject/servicefinal/WebReplyServiceImpl.java:58-68 | the reply is attached to board bno and saved, overwriting a stored rno or inserting under the next one, and its rno is returned; a null or unknown board fails and nothing changes |
| WebReplyService.Register | work/sts-workspace/sbproject/src/main/java/com/shinhan/sbroject/servicefinal/WebReplyServiceImpl.java:47-50 | the common save with its whole contract: a null or unknown board fails with no change; a stored rno is overwritten in full; a null or unknown rno is inserted under the next rno, which then advances by one |
| WebReplyService.Modify | work/sts-workspace/sbproject/src/main/java/com/shinhan/sbroject/servicefinal/WebReplyServiceImpl.java:52-55 | the same contract as register, since both are the common save: a stored rno is overwritten in full; a null or unknown rno is inserted under the next rno; a missing board fails |
| WebReplyService.RegisteredReplyReadsBack | work/sts-workspace/sbproject/src/main/java/com/shinhan/sbroject/servicefinal/WebReplyServiceImpl.java:25-46 | a reply saved under a new rno reads back by its rno and is listed under its board |
| WebReplyService.ModifiedReplyReadsBack | work/sts-workspace/sbproject/src/main/java/com/shinhan/sbroject/servicefinal/WebReplyServiceImpl.java:25-46 | an overwritten reply reads back as the new row and is listed under its board |
| WebReplyService.Delete | work/sts-workspace/sbproject/src/main/java/com/shinhan/sbroject/servicefinal/WebReplyServiceImpl.java:70-78 | the reply is gone; the result is 1 if it is still found, else 0, which is always 0 |
| UploadNaming.LastIndexOf | work/sts-workspace/sbproject/src/main/java/com/shinhan/sbroject/upload/UploadController.java:70 | -1 exactly when the character is absent, otherwise a position holding it with none after it |
| UploadNaming.BaseName | work/sts-workspace/sbproject/src/main/java/com/shinhan/sbroject/upload/UploadController.java:70 | a backslash-free suffix of the name, preceded by a backslash when shorter; the whole name when there is no backslash |
| UploadNaming.BaseNameOfPath | work/sts-workspace/sbproject/src/main/java/com/shinhan/sbroject/upload/UploadController.java:69-70 | a full Windows path loses exactly its directory part |
| UploadNaming.ThumbnailBesideOriginal | work/sts-workspace/sbproject/src/main/java/com/shinhan/sbroject/upload/UploadController.java:75-83 | original and thumbnail sit in the same folder, as uuid_name and s_uuid_name |
| UploadNaming.SaveName | work/sts-workspace/sbproject/src/main/java/com/shinhan/sbroject/upload/UploadController.java:75 | where an original is stored; stated by ThumbnailBesideOriginal and used by UploadFiles |
| UploadNaming.ThumbnailSaveName | work/sts-workspace/sbproject/src/main/java/com/shinhan/sbroject/upload/UploadController.java:82-83 | where a thumbnail would go; stated by ThumbnailBesideOriginal and RemoveByImageUrl |
| UploadNaming.GetName | work/sts-workspace/sbproject/src/main/java/com/shinhan/sbroject/upload/UploadController.java:133 | a separator-free suffix of the path |
| UploadNaming.GetParent | work/sts-workspace/sbproject/src/main/java/com/shinhan/sbroject/upload/UploadController.java:133 | null exactly without a separator; otherwise the parent, a separator and the name make up the path |
| UploadNaming.SplitAtLast | work/sts-workspace/sbproject/src/main/java/com/shinhan/sbroject/upload/UploadController.java:133 | a path dir/name with a separator-free name has name dir/name split as dir and name |
| UploadNaming.Strip | work/sts-workspace/sbproject/src/main/java/com/shinhan/sbroject/upload/UploadController.java:133 | an error exactly for names shorter than two characters; otherwise the rest after the first two |
| UploadNaming.StripInvertsPrefix | work/sts-workspace/sbproject/src/main/java/com/shinhan/sbroject/upload/UploadController.java:130-134 | stripping "s_" + n gives n |
| UploadNaming.DisplayFile | work/sts-workspace/sbproject/src/main/java/com/shinhan/sbroject/upload/UploadController.java:123-145 | an undecodable name is an error; any file sent exists; without size "1" the decoded name under the upload directory is sent |
| UploadNaming.DisplayStripsPrefix | work/sts-workspace/sbproject/src/main/java/com/shinhan/sbroject/upload/UploadController.java:132-134 | with size "1", the file dir/s_name makes getFile send dir/name |
| UploadNaming.RemoveFile | work/sts-workspace/sbproject/src/main/java/com/shinhan/sbroject/upload/UploadController.java:146-167 | an undecodable name is an error; otherwise the file and its s_ sibling are removed and the answer says only whether the sibling existed |
| UploadNaming.EncodedOrEmpty | work/sts-workspace/sbproject/src/main/java/com/shinhan/sbroject/upload/UploadResultDTO.java:23-29 | the encoder's text, or "" when encoding fails |
| UploadNaming.ImagePath | work/sts-workspace/sbproject/src/main/java/com/shinhan/sbroject/upload/UploadResultDTO.java:25 | the text getImageURL encodes; stated by ThumbnailPathInsertsPrefix and ImageUrlDisplaysOriginal |
| UploadNaming.ThumbnailPath | work/sts-workspace/sbproject/src/main/java/com/shinhan/sbroject/upload/UploadResultDTO.java:33 | the text getThumbnailURL encodes; stated by ThumbnailPathInsertsPrefix and ThumbnailUrlDisplaysOriginal |
| UploadNaming.ImageUrl | work/sts-workspace/sbproject/src/main/java/com/shinhan/sbroject/upload/UploadResultDTO.java:23-30 | getImageURL: the encoded image path, or "" when encoding fails; stated through EncodedOrEmpty |
| UploadNaming.ThumbnailUrl | work/sts-workspace/sbproject/src/main/java/com/shinhan/sbroject/upload/UploadResultDTO.java:31-38 | getThumbnailURL: the encoded thumbnail path, or "" when encoding fails; stated through EncodedOrEmpty |
| UploadNaming.ThumbnailPathInsertsPrefix | work/sts-workspace/sbproject/src/main/java/com/shinhan/sbroject/upload/UploadResultDTO.java:23-33 | before encoding, the thumbnail path is the image path with "s_" right after the folder's "/" |
| UploadNaming.ImageUrlDisplaysOriginal | work/sts-workspace/sbproject/src/main/java/com/shinhan/sbroject/upload/UploadResultDTO.java:23-25 | with '/' as the file separator, the decoded image URL makes getFile send the saved original |
| UploadNaming.ThumbnailUrlDisplaysOriginal | work/sts-workspace/sbproject/src/main/java/com/shinhan/sbroject/upload/UploadResultDTO.java:31-33 | the decoded thumbnail URL with size "1" makes getFile send the saved original too |
| UploadNaming.RemoveByImageUrl | work/sts-workspace/sbproject/src/main/java/com/shinhan/sbroject/upload/UploadController.java:146-167 | removing by the image URL deletes exactly the saved original and its thumbnail |
| UploadController.FirstNonImage | work/sts-workspace/sbproject/src/main/java/com/shinhan/sbroject/upload/UploadController.java:64 | the position of the first non-image, every file before it an image |
| UploadController.Expected | work/sts-workspace/sbproject/src/main/java/com/shinhan/sbroject/upload/UploadController.java:54-106 | the loop-free reference for one call; UploadFiles is proved equal to it, and the lemmas below state its answer and profiles |
| UploadController.UploadFiles | work/sts-workspace/sbproject/src/main/java/com/shinhan/sbroject/upload/UploadController.java:54-106 | the loop answers and saves exactly what the loop-free definition says |
| UploadController.MissingMemberSavesNothing | work/sts-workspace/sbproject/src/main/java/com/shinhan/sbroject/upload/UploadController.java:79 | without the member nothing is saved, and the answer is OK with no results unless the first file is not an image |
| UploadController.NonImageForbidsButKeepsEarlierProfiles | work/sts-workspace/sbproject/src/main/java/com/shinhan/sbroject/upload/UploadController.java:63-67 | with the member, a non-image makes the answer FORBIDDEN and the profiles saved for the files before it stay |
| UploadController.OneResultPerTransferredFile | work/sts-workspace/sbproject/src/main/java/com/shinhan/sbroject/upload/UploadController.java:81-98 | with the member and only images, one result and one profile per transferred file, in input order, each profile at the result's save name for the member |
| UploadController.SavedAll | work/sts-workspace/sbproject/src/main/java/com/shinhan/sbroject/upload/UploadController.java:81-98 | all files are saved exactly when every transfer works |
| UploadController.AtMostOneCurrent | work/sts-workspace/sbproject/src/main/java/com/shinhan/sbroject/upload/UploadController.java:92-98 | at most one profile of a call is current, and only the last saved one can be |
| UploadController.CurrentOnlyWhenEveryFileSaved | work/sts-workspace/sbproject/src/main/java/com/shinhan/sbroject/upload/UploadController.java:92-98 | a current profile means the member was found and every file was an image that transferred |
| UploadController.EveryFileSavedMakesLastCurrent | work/sts-workspace/sbproject/src/main/java/com/shinhan/sbroject/upload/UploadController.java:92-98 | when every file is an image that transfers and the member is found, the last profile is current |
| AuthLogin.Login | work/sts-workspace/sbproject/src/main/java/com/shinhan/sbroject/security/jwt/AuthServiceLogin.java:22-37 | unknown id exactly gives username-not-found, a known id with a non-matching password exactly gives bad credentials, and otherwise the token of the stored member |
| AuthLogin.TokenDependsOnMemberOnly | work/sts-workspace/sbproject/src/main/java/com/shinhan/sbroject/security/jwt/AuthServiceLogin.java:35-36 | for one token generator, the token is computed from the stored member alone; the raw password only decides whether it is issued |
| AuthLogin.OtherMembersIrrelevant | work/sts-workspace/sbproject/src/main/java/com/shinhan/sbroject/security/jwt/AuthServiceLogin.java:25 | only the stored member with the given id decides the outcome |

## Left out

- Rendering, effects and the network leg. The page's `login` call and the sign-up POST are returned as a request value rather than performed. `alert`, `preventDefault` and the scroll-lock effect are left out.
- JavaScript numbers are modelled as integers. Floating-point counts and ids, and `NaN`, are not modelled.
- The date helper is modelled on integer year, month index and day. The `Date` object and its local-time arithmetic are left out.
- Trim covers the white space and line terminators of the ECMAScript standard. Normalisation of the button text by the DOM (`innerText`) is left out.
- JavaScript object key order is not modelled. Records are maps.
- The table is modelled as rows in id order, and `findAll` and `findByBoard` return that order. The database's own ordering without ORDER BY is not modelled.
- Database collation and case rules for `contains` and `eq` are not modelled. Matching is exact and case-sensitive.
- Timestamps (`regDate`, `modDate`) are left out.
- Saving a board or reply with a bno or rno that is not stored inserts it under a fresh id. This matches Hibernate's merge of a detached entity. Other Hibernate versions may throw instead.
- A null path variable given to `selectById` or `delete` is not modelled. The ids are integers. The null bno of `modify` and of the reply save is modelled.
- `PageResultDTO` is not part of this model. The board page is described by its rows, total, index and size.
- `ProfileService.f1`, which `removeFile` calls, is not part of this model.
- These are parameters and are not reimplemented:
  - the UUID generator;
  - the date folder of `makeFolder` and its `mkdirs`;
  - URL encoding and decoding;
  - file I/O;
  - `probeContentType`;
  - BCrypt;
  - JWT creation.
- Java `File` path normalisation is not modelled: duplicate separators, a trailing separator and the root prefix of `getParent`.
- The thumbnail image is never created. The call that would create it is commented out in the source, so the model creates none.
- A null content type or original file name (a `NullPointerException`) is not modelled. Neither is a `URLDecoder` failure other than "not decodable", which `removeFile` does not catch.
- Members come from a map keyed by id. A null id or password in a login request is not modelled.
- `GetPageSpec`: stated for page and size of at least 1 and a search without a null keyword. The other cases are the errors that `GetPageable` and `MakePredicate` state.
- `ThumbnailUrlDisplaysOriginal`: stated only for '/' as the separator and for a uuid and file name without '/'. For other names, `getName` cuts at a different place.
- `RemoveByImageUrl`: stated only for a uuid and a file name without '/'. The uuid of `UUID.randomUUID` never has one. A file name with '/' would make `getName` cut inside it, so the `s_` sibling removed would not be the thumbnail's name.
- `UploadFiles`: a request without `mid` is modelled as a member that is not found, so the answer is OK with no results. In the source `findById(null)` throws an exception that the `IOException` catch does not handle, and the request ends in a server error.
- `SignupFailureText`: the server's error body is modelled as optional text. A body of another type, such as a JSON error object, which the page would put into its error state as it is, is not modelled.
- `ImageUrlDisplaysOriginal`: stated only for '/' as the file separator. With '\\' (Windows), the saved name joins the folder and the file with '\\', but `getFile` opens the upload path followed by the decoded `folder/uuid_name`. These name the same file only because `java.io.File` also accepts '/' as a separator there, and the model's paths are plain text.
- `TokenDependsOnMemberOnly`: the token generator is one fixed function of the member. Its issue and expiry time are not modelled, so two real logins at different moments may get different tokens.
