/** What one trust observation of the Copilot page yields, and how an action on it can end. */
module BrowserPage {
  import RC = ResponseCorrelation

  datatype PageState =
    | Ready | Streaming | SignInRequired | MfaRequired | ConsentRequired | IdentityUnverified
    | ProtectionUnverified | UnapprovedHost | Throttled | ServiceError | BlockingModal | ChangedSelector | Unknown

  datatype Classification = Classification(state: PageState, retryable: bool, code: string)

  /**
   `conversation` is the conversation identifier of the observed URL and `onEntryRoute` whether that URL is
   the configured entry route; URL parsing is total here. `sendActionable` is the send-control quorum.
   */
  datatype Page = Page(
    conversation: string, onEntryRoute: bool, classification: Classification, messages: seq<string>,
    responses: seq<RC.Element>, sendActionable: bool, streamingVisible: bool, composerEnabled: bool)

  /** An observation may throw; a capture failure of the response widget is told apart from everything else. */
  datatype Observation = Saw(page: Page) | CaptureFailed | Threw

  /** A fill or a click: it returned, it threw with `dispatchAttempted === false`, or it threw otherwise. */
  datatype Action = Done | RefusedBeforeDispatch(code: string) | Failed
}
