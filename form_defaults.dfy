/** The form's built-in configuration (src/lib/formDefaults.ts). */
module FormDefaults {

  /** Local date-time strings in `YYYY-MM-DDTHH:mm` form. */
  const DefaultSchedules: seq<string> := ["2024-12-20T19:00", "2024-12-21T14:00", "2024-12-22T14:00"]

  const DefaultDetails: string :=
    "[알러지 및 주의사항]\n"
    + "- 편백·침엽수 등 수목 소재 알러지가 있는 분은 수업 참여 전 주의가 필요합니다.\n"
    + "- 수업 시작 3일 전까지 100% 환불 가능하며, 이후에는 재료 준비로 인해 환불이 불가합니다.\n"
    + "- 수업 시작 10분 전까지 도착해주시기 바랍니다."

  const DefaultBankName: string := "국민은행"
  const DefaultAccountNumber: string := "1234-56-789012"
  const DefaultDepositor: string := "변화 x PIRI"
  const DefaultPrice: string := "80000"
}
