/** The messages the actors produce besides their models: the reports of `leapp.libraries.common.reporting`
    and of `leapp.models`, and the inhibitor that stops the upgrade. Only the fields the actors set are
    kept. */
module Reporting {
  import opened Failures

  datatype Report =
    | Generic(title: string, summary: string)                    // `report_generic`
    | WithRemediation(title: string, summary: string,            // `report_with_remediation`
                      remediation: string, severity: Option<string>)
    | Record(severity: Option<string>, result: string,           // a `Report` model
             summary: string,
             details: string, solutions: string)

  datatype Inhibitor = Inhibitor(summary: string, details: string, solutions: string)
}
