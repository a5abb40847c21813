/** The lines that enclose a certificate (section 2 of RFC 7468). */
module PemMarkers {
  const BEGIN_CERT := "-----BEGIN CERTIFICATE-----"
  const END_CERT := "-----END CERTIFICATE-----"

  datatype Markers = Markers(begin: string, end: string)

  type Format = f: Markers | f.begin != [] && f.end != [] && f.begin[0] == '-' && f.end[0] == '-'
    witness Markers("-", "-")

  function CertificateFormat(): Format {
    assert BEGIN_CERT[0] == '-' && END_CERT[0] == '-';
    Markers(BEGIN_CERT, END_CERT)
  }
}
