/** The loan record the backend returns, reduced to the fields the pages compute with. */
module Loans {

  import opened Calendar

  /**
   `amount` is `Number.parseFloat(loan.amount.toString())`, `interestRate` the
   annual percentage (12.5 means 12.5% a year), `tenure` the number of monthly
   periods and `startDate` the disbursal month.
   */
  datatype Loan = Loan(
    id: int,
    name: string,
    status: string,
    amount: real,
    interestRate: real,
    tenure: int,
    startDate: YearMonth)

}
