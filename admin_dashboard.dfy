/** `AdminDashboard.jsx`: the video-link text codec of the module forms, the
    forms' state and its reset, the contest edit form, the question and
    payloads of modules, and the guards of the two PDF actions. Server replies
    are parameters; a PDF file is represented by its extracted text, as on
    the server side. */
module AdminDashboard {
  import opened Common
  import opened Text
  import opened Store
  import opened AdminRoutes

  // ---------------------------------------------------------------------
  // The video-link codec

  /** One character of `split('\n')`: a newline opens a new line, any other
      character extends the last one. */
  function AddToLines(lines: seq<string>, c: char): (r: seq<string>)
    requires |lines| >= 1
    ensures |r| >= 1
  {
    if c == '\n' then lines + [""]
    else lines[..|lines| - 1] + [lines[|lines| - 1] + [c]]
  }

  /** `text.split('\n')`: always at least one line. */
  function SplitLines(text: string): (lines: seq<string>)
    ensures |lines| >= 1
  {
    if text == [] then [""] else AddToLines(SplitLines(text[..|text| - 1]), text[|text| - 1])
  }

  /** `lines.join('\n')`. */
  function JoinLines(lines: seq<string>): string {
    if lines == [] then ""
    else if |lines| == 1 then lines[0]
    else JoinLines(lines[..|lines| - 1]) + ['\n'] + lines[|lines| - 1]
  }

  predicate NoNewline(s: string) {
    forall i :: 0 <= i < |s| ==> s[i] != '\n'
  }

  /** No line holds a newline. */
  lemma {:induction false} LinesHaveNoNewline(text: string)
    ensures forall k :: 0 <= k < |SplitLines(text)| ==> NoNewline(SplitLines(text)[k])
  {
    if text != [] {
      LinesHaveNoNewline(text[..|text| - 1]);
    }
  }

  /** A newline opens an empty last line. */
  lemma JoinNewLine(ls: seq<string>)
    requires |ls| >= 1
    ensures JoinLines(ls + [""]) == JoinLines(ls) + ['\n']
  {
    var r := ls + [""];
    assert r[..|ls|] == ls;
  }

  /** The join of two or more lines, one step unfolded. */
  lemma JoinUnfold(ls: seq<string>)
    requires |ls| >= 2
    ensures JoinLines(ls) == JoinLines(ls[..|ls| - 1]) + ['\n'] + ls[|ls| - 1]
  {
  }

  lemma AppendChar(a: string, b: string, c: char)
    ensures a + ['\n'] + (b + [c]) == a + ['\n'] + b + [c]
  {
  }

  /** Any other character extends the last line. */
  lemma JoinExtendLast(ls: seq<string>, c: char)
    requires |ls| >= 2
    ensures JoinLines(ls[..|ls| - 1] + [ls[|ls| - 1] + [c]]) == JoinLines(ls) + [c]
  {
    var n := |ls|;
    var r := ls[..n - 1] + [ls[n - 1] + [c]];
    assert r[..n - 1] == ls[..n - 1] && r[n - 1] == ls[n - 1] + [c];
    JoinUnfold(r);
    JoinUnfold(ls);
    AppendChar(JoinLines(ls[..n - 1]), ls[n - 1], c);
  }

  /** One more character of the text is one more character of the join. */
  lemma JoinAddToLines(ls: seq<string>, c: char)
    requires |ls| >= 1
    ensures JoinLines(AddToLines(ls, c)) == JoinLines(ls) + [c]
  {
    if c == '\n' {
      JoinNewLine(ls);
    } else if |ls| == 1 {
      assert AddToLines(ls, c) == [ls[0] + [c]];
    } else {
      JoinExtendLast(ls, c);
    }
  }

  /** Joining the lines of a text gives the text back. */
  lemma {:induction false} JoinSplit(text: string)
    ensures JoinLines(SplitLines(text)) == text
  {
    if text != [] {
      var init := text[..|text| - 1];
      var c := text[|text| - 1];
      calc {
        JoinLines(SplitLines(text));
        JoinLines(AddToLines(SplitLines(init), c));
        { JoinAddToLines(SplitLines(init), c); }
        JoinLines(SplitLines(init)) + [c];
        { JoinSplit(init); }
        init + [c];
        text;
      }
    }
  }

  lemma AddToLinesAppend(la: seq<string>, lb: seq<string>, c: char)
    requires |lb| >= 1
    ensures AddToLines(la + lb, c) == la + AddToLines(lb, c)
  {
    if c != '\n' {
      AppendButLast(la, lb);
    }
  }

  /** A newline splits the text into two independent halves. */
  lemma {:induction false} SplitAtNewline(a: string, b: string)
    ensures SplitLines(a + ['\n'] + b) == SplitLines(a) + SplitLines(b)
  {
    var s := a + ['\n'] + b;
    if b == [] {
      assert s[..|s| - 1] == a && s[|s| - 1] == '\n';
      assert SplitLines(s) == AddToLines(SplitLines(a), '\n');
    } else {
      var init := b[..|b| - 1];
      var c := b[|b| - 1];
      assert s[..|s| - 1] == a + ['\n'] + init && s[|s| - 1] == c;
      calc {
        SplitLines(s);
        AddToLines(SplitLines(a + ['\n'] + init), c);
        { SplitAtNewline(a, init); }
        AddToLines(SplitLines(a) + SplitLines(init), c);
        { AddToLinesAppend(SplitLines(a), SplitLines(init), c); }
        SplitLines(a) + AddToLines(SplitLines(init), c);
        SplitLines(a) + SplitLines(b);
      }
    }
  }

  /** A text without newlines is one line. */
  lemma {:induction false} SplitPlainLine(s: string)
    requires NoNewline(s)
    ensures SplitLines(s) == [s]
  {
    if s != [] {
      SplitPlainLine(s[..|s| - 1]);
      assert s[..|s| - 1] + [s[|s| - 1]] == s;
    }
  }

  /** Splitting a join of newline-free lines gives the lines back. */
  lemma {:induction false} SplitJoin(lines: seq<string>)
    requires |lines| >= 1
    requires forall k :: 0 <= k < |lines| ==> NoNewline(lines[k])
    ensures SplitLines(JoinLines(lines)) == lines
  {
    if |lines| == 1 {
      SplitPlainLine(lines[0]);
    } else {
      var init := lines[..|lines| - 1];
      var last := lines[|lines| - 1];
      assert forall k :: 0 <= k < |init| ==> init[k] == lines[k];
      calc {
        SplitLines(JoinLines(lines));
        { JoinUnfold(lines); }
        SplitLines(JoinLines(init) + ['\n'] + last);
        { SplitAtNewline(JoinLines(init), last); }
        SplitLines(JoinLines(init)) + SplitLines(last);
        { SplitJoin(init); SplitPlainLine(last); }
        init + [last];
        lines;
      }
    }
  }

  /** `!v.trim()`. */
  predicate IsBlank(v: string) {
    Strip(v) == ""
  }

  /** `filter(v => v.trim())`: the lines are kept as they are, untrimmed. */
  function KeepNonBlank(lines: seq<string>): (r: seq<string>)
    ensures |r| <= |lines|
  {
    if lines == [] then []
    else
      var init := KeepNonBlank(lines[..|lines| - 1]);
      var v := lines[|lines| - 1];
      if IsBlank(v) then init else init + [v]
  }

  /** What the filter keeps is non-blank and comes from the lines. */
  lemma {:induction false} KeptLines(lines: seq<string>)
    ensures forall v <- KeepNonBlank(lines) :: !IsBlank(v) && v in lines
  {
    if lines != [] {
      var init := lines[..|lines| - 1];
      KeptLines(init);
      assert forall v <- init :: v in lines;
    }
  }

  /** Lines none of which is blank are all kept. */
  lemma {:induction false} AllLinesKept(lines: seq<string>)
    requires forall k :: 0 <= k < |lines| ==> !IsBlank(lines[k])
    ensures KeepNonBlank(lines) == lines
  {
    if lines != [] {
      var init := lines[..|lines| - 1];
      AllLinesKept(init);
      assert init + [lines[|lines| - 1]] == lines;
    }
  }

  /** The link list the module forms send for the text in their box. */
  function ParseLinks(text: string): (links: seq<string>)
    ensures forall v <- links :: !IsBlank(v) && NoNewline(v) && v in SplitLines(text)
  {
    LinesHaveNoNewline(text);
    KeptLines(SplitLines(text));
    KeepNonBlank(SplitLines(text))
  }

  /** The text the edit form shows for a module's links. */
  function FormatLinks(links: seq<string>): string {
    JoinLines(links)
  }

  /** Showing a module's links and sending the box back unchanged gives the
      same links, as long as none is blank or holds a newline. */
  lemma LinksRoundTrip(links: seq<string>)
    requires forall k :: 0 <= k < |links| ==> !IsBlank(links[k]) && NoNewline(links[k])
    ensures ParseLinks(FormatLinks(links)) == links
  {
    if links == [] {
      assert Strip("") == "";
    } else {
      SplitJoin(links);
      AllLinesKept(links);
    }
  }

  /** Reading a box and showing the result again keeps every non-blank
      line and drops the others. */
  lemma LinksReformatted(text: string)
    requires forall k :: 0 <= k < |SplitLines(text)| ==> !IsBlank(SplitLines(text)[k])
    ensures FormatLinks(ParseLinks(text)) == text
  {
    JoinSplit(text);
    AllLinesKept(SplitLines(text));
  }

  // ---------------------------------------------------------------------
  // Forms

  /** The module form. A select left on its empty choice holds the empty
      text, which the server sees as a missing id; `moduleNo` is what
      `parseInt` makes of the box (`None` for `NaN`, sent as `null`). */
  datatype ModuleForm = ModuleForm(courseId: RawId, moduleNo: Option<int>, title: string, context: string, videoLinks: string)

  datatype QuestionForm = QuestionForm(
    moduleId: RawId, question: string, option1: string, option2: string, option3: string, option4: string,
    correctAnswer: int, difficulty: string)

  datatype ContestForm = ContestForm(
    title: string, moduleIds: seq<Id>, startTime: string, endTime: string,
    durationMinutes: int, marksPerQuestion: int, negativeMarking: real)

  datatype PdfModuleForm = PdfModuleForm(courseId: RawId, moduleTitle: string, numQuestions: int)

  datatype Snackbar = Snackbar(open: bool, message: string, severity: string)

  const NoId: RawId := BadIdText("")

  const BlankModuleForm: ModuleForm := ModuleForm(NoId, None, "", "", "")
  const BlankQuestionForm: QuestionForm := QuestionForm(NoId, "", "", "", "", "", 0, "easy")
  const BlankContestForm: ContestForm := ContestForm("", [], "", "", 30, 1, 0.0)
  const BlankPdfModuleForm: PdfModuleForm := PdfModuleForm(NoId, "", 10)

  /** `err.response?.data?.error || fallback`. */
  function ErrorText(message: string, fallback: string): (r: string)
    ensures r != "" || fallback == ""
    ensures message != "" ==> r == message
  {
    if message == "" then fallback else message
  }

  /** A number field's `|| fallback`: zero is falsy. */
  function OrDefault(x: int, fallback: int): (r: int)
    ensures x != 0 ==> r == x
    ensures x == 0 ==> r == fallback
  {
    if x == 0 then fallback else x
  }

  /** The edit form `handleEditContest` fills in for a contest. */
  function ContestFormOf(c: Contest): (f: ContestForm)
    ensures f.durationMinutes != 0 && f.marksPerQuestion != 0
    ensures c.durationMinutes != 0 ==> f.durationMinutes == c.durationMinutes
    ensures c.marksPerQuestion != 0 ==> f.marksPerQuestion == c.marksPerQuestion
    ensures c.durationMinutes == 0 ==> f.durationMinutes == 30
    ensures c.marksPerQuestion == 0 ==> f.marksPerQuestion == 1
    ensures f.negativeMarking == c.negativeMarking
    ensures f.title == c.title && f.moduleIds == c.moduleIds
    ensures f.startTime == c.startTime.GetOr("") && f.endTime == c.endTime.GetOr("")
  {
    ContestForm(c.title, c.moduleIds, c.startTime.GetOr(""), c.endTime.GetOr(""),
                OrDefault(c.durationMinutes, 30), OrDefault(c.marksPerQuestion, 1),
                if c.negativeMarking == 0.0 then 0.0 else c.negativeMarking)
  }

  /** The edit form `handleEditModule` fills in for a module. */
  function ModuleFormOf(m: Module): ModuleForm {
    ModuleForm(ObjectIdText(m.courseId), Some(m.moduleNo), m.title, m.context, FormatLinks(m.videoLinks))
  }

  /** The body the create and update buttons of the module form send. */
  function ModulePayload(f: ModuleForm): (b: ModuleBody)
    ensures b.videoLinks == Some(ParseLinks(f.videoLinks))
    ensures b.courseId == Some(f.courseId) && b.moduleNo == f.moduleNo
  {
    ModuleBody(Some(f.courseId), f.moduleNo, Some(f.title), Some(f.context), Some(ParseLinks(f.videoLinks)))
  }

  /** The body the question form sends: the four options in their order. */
  function QuestionPayload(f: QuestionForm): QuestionBody {
    QuestionBody(Some(f.moduleId), Some(f.question), Some([f.option1, f.option2, f.option3, f.option4]),
                 Some(f.correctAnswer), Some(f.difficulty))
  }

  /** A question created from the form is stored with exactly the four
      options in form order and the form's correct answer and difficulty;
      creation fails only for a missing module, a missing question text or
      a module id that does not parse. */
  lemma CreatedQuestion(f: QuestionForm, id: Id)
    ensures var r := NewQuestionOf(QuestionPayload(f), id);
            && (r.Err? <==> f.moduleId == NoId || f.moduleId.BadIdText? || f.question == "")
            && (r.Ok? ==> r.value.options == [f.option1, f.option2, f.option3, f.option4]
                          && r.value.correctAnswer == f.correctAnswer && r.value.difficulty == f.difficulty
                          && r.value.owner == OfModule(f.moduleId.id))
  {
  }

  /** Editing a module and saving the form unchanged sends `update_module`
      a non-empty patch that writes the module's own fields back, links
      included, when no link is blank or holds a newline: whatever the
      stored document `o` holds by then, it ends with `m`'s fields under its
      own id. */
  lemma EditedModuleSavedUnchanged(m: Module, o: Module)
    requires forall k :: 0 <= k < |m.videoLinks| ==> !IsBlank(m.videoLinks[k]) && NoNewline(m.videoLinks[k])
    ensures ModuleSetOf(ModulePayload(ModuleFormOf(m))).Ok?
    ensures !ModuleSetEmpty(ModuleSetOf(ModulePayload(ModuleFormOf(m))).value)
    ensures ApplyModuleSet(ModuleSetOf(ModulePayload(ModuleFormOf(m))).value)(o)
            == m.(id := o.id, generatedFromPdf := o.generatedFromPdf)
    ensures ApplyModuleSet(ModuleSetOf(ModulePayload(ModuleFormOf(m))).value)(m) == m
  {
    var b := ModuleBody(Some(ObjectIdText(m.courseId)), Some(m.moduleNo), Some(m.title), Some(m.context),
                        Some(m.videoLinks));
    calc {
      ModulePayload(ModuleFormOf(m));
      { LinksRoundTrip(m.videoLinks); }
      b;
    }
    assert ModuleSetOf(b) == Ok(ModuleSet(Some(m.courseId), Some(m.moduleNo), Some(m.title), Some(m.context),
                                          Some(m.videoLinks)));
  }

  // ---------------------------------------------------------------------
  // The dashboard's state

  /** A form the dashboard sends passes the server's first two checks. */
  predicate SentFormChecked(form: PdfForm) {
    && PdfFormError(form) != Some(Err(400, "No file provided"))
    && PdfFormError(form) != Some(Err(400, "Course ID is required"))
  }

  /** The form the dashboard sends once its own checks have passed. */
  function SentForm(pdfFile: Option<string>, m: PdfModuleForm): (f: PdfForm)
    requires pdfFile.Some? && m.courseId != NoId && m.moduleTitle != ""
    ensures f.file == pdfFile && f.courseId == Some(m.courseId)
    ensures f.moduleTitle == Some(m.moduleTitle) && f.numQuestions == Some(m.numQuestions)
    ensures SentFormChecked(f)
  {
    PdfForm(pdfFile, Some(m.courseId), Some(m.moduleTitle), Some(m.numQuestions))
  }

  class Dashboard {
    var openDialog: string
    var editingModule: Option<Module>
    var editingContest: Option<Contest>
    var moduleForm: ModuleForm
    var questionForm: QuestionForm
    var contestForm: ContestForm
    var pdfFile: Option<string>
    var pdfResult: Option<Upload>
    var pdfModuleForm: PdfModuleForm
    var generatingModule: bool
    var snackbar: Snackbar

    /** No dialog open, nothing being edited, every form at its initial
        values, no PDF chosen or processed. */
    predicate Pristine()
      reads this
    {
      && openDialog == "" && editingModule.None? && editingContest.None?
      && moduleForm == BlankModuleForm && questionForm == BlankQuestionForm
      && contestForm == BlankContestForm && pdfModuleForm == BlankPdfModuleForm
      && pdfFile.None? && pdfResult.None? && !generatingModule
    }

    /** The initial `useState` values. */
    constructor ()
      ensures Pristine() && snackbar == Snackbar(false, "", "success")
    {
      openDialog := "";
      editingModule, editingContest := None, None;
      moduleForm := ModuleForm(BadIdText(""), None, "", "", "");
      questionForm := QuestionForm(BadIdText(""), "", "", "", "", "", 0, "easy");
      contestForm := ContestForm("", [], "", "", 30, 1, 0.0);
      pdfFile, pdfResult := None, None;
      pdfModuleForm := PdfModuleForm(BadIdText(""), "", 10);
      generatingModule := false;
      snackbar := Snackbar(false, "", "success");
    }

    /** `handleCloseDialog`: back to the initial state; the snackbar stays. */
    method CloseDialog()
      modifies this
      ensures Pristine() && snackbar == old(snackbar)
    {
      openDialog := "";
      editingModule := None;
      editingContest := None;
      moduleForm := ModuleForm(BadIdText(""), None, "", "", "");
      questionForm := QuestionForm(BadIdText(""), "", "", "", "", "", 0, "easy");
      contestForm := ContestForm("", [], "", "", 30, 1, 0.0);
      pdfFile := None;
      pdfResult := None;
      pdfModuleForm := PdfModuleForm(BadIdText(""), "", 10);
      generatingModule := false;
    }

    /** `handleEditModule`. */
    method EditModule(m: Module)
      modifies this`editingModule, this`moduleForm, this`openDialog
      ensures editingModule == Some(m) && moduleForm == ModuleFormOf(m) && openDialog == "editModule"
    {
      editingModule := Some(m);
      moduleForm := ModuleForm(ObjectIdText(m.courseId), Some(m.moduleNo), m.title, m.context, JoinLines(m.videoLinks));
      openDialog := "editModule";
    }

    /** `handleEditContest`. */
    method EditContest(c: Contest)
      modifies this`editingContest, this`contestForm, this`openDialog
      ensures editingContest == Some(c) && contestForm == ContestFormOf(c) && openDialog == "editContest"
    {
      editingContest := Some(c);
      contestForm := ContestForm(c.title, c.moduleIds, c.startTime.GetOr(""), c.endTime.GetOr(""),
                                 OrDefault(c.durationMinutes, 30), OrDefault(c.marksPerQuestion, 1),
                                 if c.negativeMarking == 0.0 then 0.0 else c.negativeMarking);
      openDialog := "editContest";
    }

    /** `handleUploadPDF`, `reply` standing for the server's answer: nothing
        happens without a chosen file. */
    method UploadPdf(reply: Response<Upload>) returns (sent: bool)
      modifies this`pdfResult, this`snackbar
      ensures sent <==> old(pdfFile).Some?
      ensures !sent ==> pdfResult == old(pdfResult) && snackbar == old(snackbar)
      ensures sent && reply.Ok? ==>
                pdfResult == Some(reply.value) && snackbar == Snackbar(true, "PDF processed successfully!", "success")
      ensures sent && reply.Err? ==>
                pdfResult == old(pdfResult)
                && snackbar == Snackbar(true, ErrorText(reply.message, "Failed to upload PDF"), "error")
    {
      if pdfFile.None? {
        return false;
      }
      sent := true;
      match reply {
        case Ok(result) =>
          pdfResult := Some(result);
          snackbar := Snackbar(true, "PDF processed successfully!", "success");
        case Err(_, message) =>
          snackbar := Snackbar(true, ErrorText(message, "Failed to upload PDF"), "error");
      }
    }

    /** The guard of `handleGenerateModuleFromPDF`. */
    predicate CanGenerate()
      reads this
    {
      pdfFile.Some? && pdfModuleForm.courseId != NoId && pdfModuleForm.moduleTitle != ""
    }

    /** `handleGenerateModuleFromPDF`, `reply` standing for the server's
        answer (its message on success). Without a file, a course and a
        title only the error is reported; a form that is sent always gets
        past the server's file and course presence checks. */
    method GenerateFromPdf(reply: Response<string>) returns (request: Option<PdfForm>)
      modifies this
      ensures request.Some? <==> old(CanGenerate())
      ensures !old(CanGenerate()) ==>
                && snackbar == Snackbar(true, "Please select PDF, course, and provide module title", "error")
                && openDialog == old(openDialog) && pdfFile == old(pdfFile) && pdfResult == old(pdfResult)
                && moduleForm == old(moduleForm) && questionForm == old(questionForm)
                && contestForm == old(contestForm) && pdfModuleForm == old(pdfModuleForm)
                && editingModule == old(editingModule) && editingContest == old(editingContest)
                && generatingModule == old(generatingModule)
      ensures request.Some? ==>
                && request.value == PdfForm(old(pdfFile), Some(old(pdfModuleForm.courseId)),
                                            Some(old(pdfModuleForm.moduleTitle)), Some(old(pdfModuleForm.numQuestions)))
                && SentFormChecked(request.value)
                && !generatingModule
      ensures request.Some? && reply.Ok? ==>
                Pristine() && snackbar == Snackbar(true, ErrorText(reply.value, "Module and questions generated successfully!"), "success")
      ensures request.Some? && reply.Err? ==>
                && snackbar == Snackbar(true, ErrorText(reply.message, "Failed to generate module from PDF"), "error")
                && openDialog == old(openDialog) && pdfFile == old(pdfFile) && pdfModuleForm == old(pdfModuleForm)
    {
      if pdfFile.None? || pdfModuleForm.courseId == NoId || pdfModuleForm.moduleTitle == "" {
        snackbar := Snackbar(true, "Please select PDF, course, and provide module title", "error");
        return None;
      }
      generatingModule := true;
      request := Some(SentForm(pdfFile, pdfModuleForm));
      match reply {
        case Ok(message) =>
          snackbar := Snackbar(true, ErrorText(message, "Module and questions generated successfully!"), "success");
          CloseDialog();
        case Err(_, message) =>
          snackbar := Snackbar(true, ErrorText(message, "Failed to generate module from PDF"), "error");
      }
      generatingModule := false;
    }
  }
}
