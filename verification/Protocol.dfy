/** The messages of the enrolment exchange. */
module Protocol {
  import opened Prelude

  /** CSR and chain travel as base64; the challenge is never part of the body. */
  datatype EnrollRequest = EnrollRequest(deviceId: string, csr: string, attestationChain: seq<string>)

  datatype EnrollResponse = EnrollResponse(
    clientCertificate: string,
    caCertificate: Option<string>,
    certificateChain: Option<seq<string>>)
}
