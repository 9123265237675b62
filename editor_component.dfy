/**
 * The editor component itself: its five pieces of state are fields, and each
 * event handler is a method that updates them step by step as the component
 * does. Each method's postcondition ties the new state, the alert and the
 * request to the handler's net effect in EditorSpec, where the handler's
 * properties are stated and proved.
 */
module EditorComponent {
  import opened Wrappers
  import opened JsText
  import opened EditorSpec

  class DiagramEditor {
    var code: string
    var diagramType: string
    var generatedDiagram: Option<Diagram>
    var isGenerating: bool
    var githubUrl: string

    /** The fields as one value. */
    function Snapshot(): State
      reads this
    {
      State(code, diagramType, generatedDiagram, isGenerating, githubUrl)
    }

    predicate Valid()
      reads this
    {
      EditorSpec.Valid(Snapshot())
    }

    /** The state the component mounts with. */
    constructor ()
      ensures Snapshot() == Initial && Valid()
    {
      code := "";
      diagramType := "flowchart";
      generatedDiagram := None;
      isGenerating := false;
      githubUrl := "";
    }

    /** Typing in the code area. */
    method EditCode(text: string)
      modifies this`code
      ensures Snapshot() == old(Snapshot()).(code := text)
    {
      code := text;
    }

    /** Typing in the GitHub URL field. */
    method EditGithubUrl(text: string)
      modifies this`githubUrl
      ensures Snapshot() == old(Snapshot()).(githubUrl := text)
    {
      githubUrl := text;
    }

    /** Choosing an entry of the type selector, which offers only the six diagram types. */
    method SelectDiagramType(t: string)
      requires t in DiagramTypes
      modifies this`diagramType
      ensures Snapshot() == old(Snapshot()).(diagramType := t)
      ensures old(Valid()) ==> Valid()
    {
      diagramType := t;
    }

    /** handleFileUpload, with the reader's load event delivered before the method returns. */
    method HandleFileUpload(file: Option<TextFile>) returns (alert: Option<Alert>)
      modifies this`code
      ensures var e := UploadFile(old(Snapshot()), file);
        Snapshot() == e.state && alert == e.alert
    {
      alert := None;
      if file.Some? && file.value.mimeType == PlainText {
        match file.value.contents
        case Some(text) =>
          code := text;
        case None =>
      } else {
        alert := Some(InvalidTextFile);
      }
    }

    /** handlePasteFromClipboard; `None` is a rejected clipboard read. */
    method HandlePasteFromClipboard(clipboard: Option<string>) returns (alert: Option<Alert>)
      modifies this`code
      ensures var e := PasteFromClipboard(old(Snapshot()), clipboard);
        Snapshot() == e.state && alert == e.alert
    {
      alert := None;
      match clipboard
      case Some(text) =>
        code := text;
      case None =>
        alert := Some(ClipboardUnavailable);
    }

    /** loadFromGithub; `fetched` is what fetching the derived raw URL and reading its text gave. */
    method LoadFromGithub(fetched: FetchResult) returns (alert: Option<Alert>, request: Option<Request>)
      modifies this`code, this`githubUrl
      ensures var e := EditorSpec.LoadFromGithub(old(Snapshot()), fetched);
        Snapshot() == e.state && alert == e.alert && request == e.request
    {
      alert, request := None, None;
      if githubUrl == "" {
        return;
      }
      var rawUrl := RawUrl(githubUrl);
      request := Some(Get(rawUrl));
      match fetched
      case Fetched(text) =>
        code := text;
        githubUrl := "";
      case FetchRejected =>
        alert := Some(GithubLoadFailed);
    }

    /**
     * generateDiagram; `parses` says whether `JSON.parse(code)` succeeds and
     * `reply` is what the POST to the diagram service gave.
     */
    method GenerateDiagram(parses: bool, reply: Reply) returns (alert: Option<Alert>, request: Option<Request>)
      modifies this`isGenerating, this`generatedDiagram
      ensures var e := Generate(old(Snapshot()), parses, reply);
        Snapshot() == e.state && alert == e.alert && request == e.request
    {
      alert, request := None, None;
      ghost var s0 := Snapshot();
      var blank := TrimIsEmpty(code);
      if blank {
        alert := Some(EnterCodeFirst);
        return;
      }
      isGenerating := true;
      if !parses {
        alert := Some(GenerationFailed);
      } else {
        request := Some(Post(DiagramEndpoint));
        match reply
        case PostRejected =>
          alert := Some(GenerationFailed);
        case Answered(status, payload) =>
          if status == Forbidden {
            isGenerating := false;
            return;
          }
          match payload
          case NotJson =>
            alert := Some(GenerationFailed);
          case WithoutUrl =>
            alert := Some(DiagramNotGenerated);
          case WithUrl(url) =>
            if url != "" {
              generatedDiagram := Some(Diagram(url, diagramType));
            } else {
              alert := Some(DiagramNotGenerated);
            }
      }
      isGenerating := false;
    }

    /** The guard of exportDiagram: an export starts only when a diagram is displayed. */
    method ExportDiagram(format: string) returns (started: bool)
      ensures started <==> generatedDiagram.Some?
    {
      if generatedDiagram.None? {
        return false;
      }
      started := true;
    }
  }

  /**
   * A session from mounting to a displayed diagram: after pasting non-blank
   * JSON and choosing a type, a reply with a url displays that url with the
   * type chosen at the moment of the request.
   */
  method SessionDisplaysSelectedType(json: string, url: string)
    requires !IsBlank(json) && url != ""
  {
    var editor := new DiagramEditor();
    var pasted := editor.HandlePasteFromClipboard(Some(json));
    editor.SelectDiagramType("er");
    var reply := Answered(200, WithUrl(url));
    GenerateSpec(editor.Snapshot(), true, reply);
    var alert, request := editor.GenerateDiagram(true, reply);
    assert editor.generatedDiagram == Some(Diagram(url, "er"));
    assert alert == None && request == Some(Post(DiagramEndpoint));
    assert editor.Valid();
  }
}
