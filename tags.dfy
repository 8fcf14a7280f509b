/**
 * The fixed vocabulary of outcome strings that the automation records for
 * each server, in the result list of a run and in the report.
 */
module Tags {

  // renew step
  const RenewSuccess := "renew_success"
  const AlreadyRenewed := "already_renewed"
  const NoRenewButton := "no_renew_button"
  const RenewButtonDisabled := "renew_button_disabled"
  const RenewUnknownChanged := "renew_unknown_changed"
  const RenewNoChange := "renew_no_change"
  const RenewClickError := "renew_click_error"
  const RenewError := "renew_error"

  // start step
  const StartSuccess := "start_success"
  const AlreadyStarted := "already_started"
  const NoStartButton := "no_start_button"
  const StartUnknown := "start_unknown"
  const StartError := "start_error"

  // per-server outcomes shared by both steps
  const LoginFailed := "login_failed"
  const Error := "error"
  /** The placeholder written before either step has run ("not executed"). */
  const NotRun := "未执行"

  // whole-run outcomes
  const NoAuth := "error: no_auth"
  const NoServers := "error: no_servers"
  const Timeout := "error: timeout"
  const Runtime := "error: runtime"

  /** The four tags the post-click classifier of the renew step chooses from. */
  const RenewClassifications: set<string> :=
    {AlreadyRenewed, RenewSuccess, RenewUnknownChanged, RenewNoChange}

  const RenewTags: set<string> :=
    RenewClassifications + {NoRenewButton, RenewButtonDisabled, RenewClickError, RenewError}

  const StartTags: set<string> :=
    {StartSuccess, AlreadyStarted, NoStartButton, StartUnknown, StartError}
}
